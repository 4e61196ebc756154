/**
 Nested payloads and their normalisation
 (app/controllers/assets/relationship_handler.py, `normalize_payload`).
 */
module Payload {
  import opened Prelude

  /** A JSON-like value. A dictionary keeps its insertion order. */
  datatype Value = Null | Bool(b: bool) | Int(n: int) | Str(s: string)
                 | Dict(entries: seq<Entry>) | List(items: seq<Value>)
  {
    /** Python truth. */
    predicate Truthy() {
      match this
      case Null => false
      case Bool(b) => b
      case Int(n) => n != 0
      case Str(s) => s != ""
      case Dict(es) => es != []
      case List(vs) => vs != []
    }
  }

  datatype Entry = Entry(key: string, value: Value)

  const REL := "__rel__"

  function Lookup(es: seq<Entry>, k: string): Option<Value> {
    if es == [] then None
    else if es[0].key == k then Some(es[0].value)
    else Lookup(es[1..], k)
  }

  predicate EndsWithId(k: string) {
    |k| >= 3 && k[|k| - 3..] == "_id"
  }

  /** The test that tells a relationship from a plain nested struct. */
  predicate LooksRelated(es: seq<Entry>) {
    exists i :: 0 <= i < |es| && (es[i].key == "id" || EndsWithId(es[i].key))
  }

  function Without(es: seq<Entry>, k: string): seq<Entry> {
    if es == [] then []
    else if es[0].key == k then Without(es[1..], k)
    else [es[0]] + Without(es[1..], k)
  }

  /** `{"__rel__": True, **value}`: the marker comes first and keeps a value it
      already has in `value`. */
  function Mark(es: seq<Entry>): seq<Entry> {
    var flag := match Lookup(es, REL) case None => Bool(true) case Some(v) => v;
    [Entry(REL, flag)] + Without(es, REL)
  }

  function Normalize(es: seq<Entry>): seq<Entry> {
    if es == [] then []
    else [Entry(es[0].key, NormalizeValue(es[0].value))] + Normalize(es[1..])
  }

  function NormalizeValue(v: Value): Value {
    match v
    case Dict(es) => if LooksRelated(es) then Dict(Mark(es)) else Dict(Normalize(es))
    case List(vs) => List(NormalizeItems(vs))
    case _ => v
  }

  function NormalizeItems(vs: seq<Value>): seq<Value> {
    if vs == [] then []
    else [match vs[0] case Dict(es) => Dict(Normalize(es)) case _ => vs[0]] + NormalizeItems(vs[1..])
  }

  lemma NormalizeNone()
    ensures Normalize([]) == [] && NormalizeItems([]) == []
  {
  }

  lemma NormalizeStep(data: seq<Entry>, i: nat)
    requires i < |data|
    ensures Normalize(data[i..]) == [Entry(data[i].key, NormalizeValue(data[i].value))] + Normalize(data[i + 1..])
  {
    assert data[i..][1..] == data[i + 1..];
  }

  lemma NormalizeItemsStep(vs: seq<Value>, j: nat)
    requires j < |vs|
    ensures
      var item := match vs[j] case Dict(es) => Dict(Normalize(es)) case _ => vs[j];
      NormalizeItems(vs[j..]) == [item] + NormalizeItems(vs[j + 1..])
  {
    assert vs[j..][1..] == vs[j + 1..];
  }

  /** The loop that fills the normalised dictionary. */
  method NormalizePayload(data: seq<Entry>) returns (normalized: seq<Entry>)
    ensures normalized == Normalize(data)
    decreases data
  {
    hide Normalize, LooksRelated, Mark;
    NormalizeNone();
    assert data[0..] == data;
    normalized := [];
    for i := 0 to |data|
      invariant normalized + Normalize(data[i..]) == Normalize(data)
    {
      NormalizeStep(data, i);
      var value := data[i].value;
      match value {
        case Dict(es) =>
          if LooksRelated(es) {
            value := Dict(Mark(es));
          } else {
            var inner := NormalizePayload(es);
            value := Dict(inner);
          }
        case List(vs) =>
          var items := NormalizeList(vs);
          value := List(items);
        case _ =>
      }
      assert value == NormalizeValue(data[i].value);
      Regroup(normalized, [Entry(data[i].key, value)], Normalize(data[i + 1..]));
      normalized := normalized + [Entry(data[i].key, value)];
    }
    assert data[|data|..] == [];
  }

  method NormalizeList(vs: seq<Value>) returns (items: seq<Value>)
    ensures items == NormalizeItems(vs)
    decreases vs
  {
    hide Normalize, NormalizeItems;
    NormalizeNone();
    assert vs[0..] == vs;
    items := [];
    for j := 0 to |vs|
      invariant items + NormalizeItems(vs[j..]) == NormalizeItems(vs)
    {
      NormalizeItemsStep(vs, j);
      var item := vs[j];
      if item.Dict? {
        var inner := NormalizePayload(item.entries);
        item := Dict(inner);
      }
      Regroup(items, [item], NormalizeItems(vs[j + 1..]));
      items := items + [item];
    }
    assert vs[|vs|..] == [];
  }

  // --------------------------------------------------------------------
  // Idempotence
  // --------------------------------------------------------------------

  lemma {:induction false} WithoutTwice(es: seq<Entry>, k: string)
    ensures Without(Without(es, k), k) == Without(es, k)
    ensures Lookup(Without(es, k), k) == None
  {
    if es != [] {
      WithoutTwice(es[1..], k);
      assert es[0].key != k ==> ([es[0]] + Without(es[1..], k))[1..] == Without(es[1..], k);
    }
  }

  lemma MarkTwice(es: seq<Entry>)
    ensures Mark(Mark(es)) == Mark(es)
  {
    WithoutTwice(es, REL);
    assert Mark(es)[1..] == Without(es, REL);
    assert Lookup(Mark(es), REL) == Some(Mark(es)[0].value);
  }

  lemma {:induction false} WithoutKeeps(es: seq<Entry>, k: string, i: nat)
    requires i < |es| && es[i].key != k
    ensures es[i] in Without(es, k)
  {
    if i > 0 { WithoutKeeps(es[1..], k, i - 1); }
  }

  lemma MarkStaysRelated(es: seq<Entry>)
    requires LooksRelated(es)
    ensures LooksRelated(Mark(es))
  {
    var i :| 0 <= i < |es| && (es[i].key == "id" || EndsWithId(es[i].key));
    assert !EndsWithId(REL) by { assert REL[|REL| - 3..][0] == 'l'; }
    WithoutKeeps(es, REL, i);
    assert Mark(es)[1..] == Without(es, REL);
    assert es[i] in Mark(es);
    var j :| 0 <= j < |Mark(es)| && Mark(es)[j] == es[i];
  }

  lemma {:induction false} NormalizeKeepsKeys(es: seq<Entry>)
    ensures |Normalize(es)| == |es| && forall i :: 0 <= i < |es| ==> Normalize(es)[i].key == es[i].key
  {
    if es != [] {
      NormalizeKeepsKeys(es[1..]);
      forall i | 0 < i < |es| ensures Normalize(es)[i].key == es[i].key {
        assert Normalize(es)[i] == Normalize(es[1..])[i - 1];
      }
    }
  }

  lemma NormalizeStaysPlain(es: seq<Entry>)
    ensures LooksRelated(Normalize(es)) <==> LooksRelated(es)
  {
    NormalizeKeepsKeys(es);
    if LooksRelated(es) {
      var i :| 0 <= i < |es| && (es[i].key == "id" || EndsWithId(es[i].key));
      assert Normalize(es)[i].key == es[i].key;
    }
  }

  /** Normalising a payload twice is normalising it once. */
  lemma {:induction false} NormalizeIdempotent(es: seq<Entry>)
    ensures Normalize(Normalize(es)) == Normalize(es)
  {
    if es != [] {
      NormalizeValueIdempotent(es[0].value);
      NormalizeIdempotent(es[1..]);
      assert Normalize(es)[1..] == Normalize(es[1..]);
    }
  }

  lemma {:induction false} NormalizeValueIdempotent(v: Value)
    ensures NormalizeValue(NormalizeValue(v)) == NormalizeValue(v)
  {
    match v
    case Dict(es) =>
      if LooksRelated(es) {
        MarkTwice(es);
        MarkStaysRelated(es);
      } else {
        NormalizeStaysPlain(es);
        NormalizeIdempotent(es);
      }
    case List(vs) => NormalizeItemsIdempotent(vs);
    case _ =>
  }

  lemma {:induction false} NormalizeItemsIdempotent(vs: seq<Value>)
    ensures NormalizeItems(NormalizeItems(vs)) == NormalizeItems(vs)
  {
    if vs != [] {
      match vs[0] {
        case Dict(es) => NormalizeIdempotent(es);
        case _ =>
      }
      NormalizeItemsIdempotent(vs[1..]);
      assert NormalizeItems(vs)[1..] == NormalizeItems(vs[1..]);
    }
  }

  // --------------------------------------------------------------------
  // Nothing but the marker is added
  // --------------------------------------------------------------------

  /** The payload with every marker entry dropped, at every depth. */
  function Erase(es: seq<Entry>): seq<Entry> {
    if es == [] then []
    else if es[0].key == REL then Erase(es[1..])
    else [Entry(es[0].key, EraseValue(es[0].value))] + Erase(es[1..])
  }

  function EraseValue(v: Value): Value {
    match v
    case Dict(es) => Dict(Erase(es))
    case List(vs) => List(EraseItems(vs))
    case _ => v
  }

  function EraseItems(vs: seq<Value>): seq<Value> {
    if vs == [] then [] else [EraseValue(vs[0])] + EraseItems(vs[1..])
  }

  lemma {:induction false} EraseWithout(es: seq<Entry>)
    ensures Erase(Without(es, REL)) == Erase(es)
  {
    if es != [] {
      EraseWithout(es[1..]);
      if es[0].key != REL {
        assert Without(es, REL)[1..] == Without(es[1..], REL);
      }
    }
  }

  /** Normalisation is invisible once markers are erased. */
  lemma {:induction false} EraseNormalize(es: seq<Entry>)
    ensures Erase(Normalize(es)) == Erase(es)
  {
    if es != [] {
      EraseNormalizeValue(es[0].value);
      EraseNormalize(es[1..]);
      assert Normalize(es)[1..] == Normalize(es[1..]);
    }
  }

  lemma {:induction false} EraseNormalizeValue(v: Value)
    ensures EraseValue(NormalizeValue(v)) == EraseValue(v)
  {
    match v
    case Dict(es) =>
      if LooksRelated(es) {
        EraseWithout(es);
        assert Mark(es)[1..] == Without(es, REL);
      } else {
        EraseNormalize(es);
      }
    case List(vs) => EraseNormalizeItems(vs);
    case _ =>
  }

  lemma {:induction false} EraseNormalizeItems(vs: seq<Value>)
    ensures EraseItems(NormalizeItems(vs)) == EraseItems(vs)
  {
    if vs != [] {
      match vs[0] {
        case Dict(es) => EraseNormalize(es);
        case _ =>
      }
      EraseNormalizeItems(vs[1..]);
      assert NormalizeItems(vs)[1..] == NormalizeItems(vs[1..]);
    }
  }

  // --------------------------------------------------------------------
  // What normalisation leaves alone
  // --------------------------------------------------------------------

  /** The marker comes first and nowhere else. */
  predicate MarkedFirst(es: seq<Entry>) {
    es != [] && es[0].key == REL && forall i :: 0 < i < |es| ==> es[i].key != REL
  }

  /** A dictionary with an id-like key is marked; any other dictionary, and a
      dictionary in a list whatever its keys, has only settled values. */
  predicate Settled(v: Value) {
    match v
    case Dict(es) => if LooksRelated(es) then MarkedFirst(es) else SettledEntries(es)
    case List(vs) => SettledItems(vs)
    case _ => true
  }

  predicate SettledEntries(es: seq<Entry>) {
    es == [] || (Settled(es[0].value) && SettledEntries(es[1..]))
  }

  predicate SettledItems(vs: seq<Value>) {
    vs == [] || ((match vs[0] case Dict(es) => SettledEntries(es) case _ => true) && SettledItems(vs[1..]))
  }

  lemma {:induction false} WithoutAbsent(es: seq<Entry>, k: string)
    ensures |Without(es, k)| <= |es|
    ensures Without(es, k) == es <==> forall i :: 0 <= i < |es| ==> es[i].key != k
  {
    if es != [] {
      var rest := es[1..];
      WithoutAbsent(rest, k);
      assert (forall i :: 0 <= i < |es| ==> es[i].key != k) <==>
             es[0].key != k && forall i :: 0 <= i < |rest| ==> rest[i].key != k by {
        assert forall i :: 0 <= i < |rest| ==> rest[i] == es[i + 1];
        assert forall i :: 0 < i < |es| ==> es[i] == rest[i - 1];
      }
      if es[0].key != k { assert Without(es, k)[1..] == Without(rest, k) && es == [es[0]] + rest; }
    }
  }

  lemma MarkSettledIff(es: seq<Entry>)
    ensures Mark(es) == es <==> MarkedFirst(es)
  {
    assert Mark(es)[1..] == Without(es, REL);
    if es != [] && es[0].key == REL {
      var rest := es[1..];
      WithoutAbsent(rest, REL);
      assert Without(es, REL) == Without(rest, REL) && Mark(es)[0] == es[0];
      assert Mark(es) == es <==> Without(rest, REL) == rest by {
        assert es == [es[0]] + rest && Mark(es) == [es[0]] + Without(rest, REL);
        if Mark(es) == es { assert Mark(es)[1..] == es[1..]; }
      }
      assert (forall i :: 0 <= i < |rest| ==> rest[i].key != REL) <==>
             (forall i :: 0 < i < |es| ==> es[i].key != REL) by {
        assert forall i :: 0 <= i < |rest| ==> rest[i] == es[i + 1];
        assert forall i :: 0 < i < |es| ==> es[i] == rest[i - 1];
      }
    } else {
      assert Mark(es)[0].key == REL;
    }
  }

  /** Normalisation leaves a value alone exactly when it is settled. */
  lemma {:induction false} NormalizeSettledIff(v: Value)
    ensures NormalizeValue(v) == v <==> Settled(v)
  {
    match v
    case Dict(es) => if LooksRelated(es) { MarkSettledIff(es); } else { EntriesSettledIff(es); }
    case List(vs) => ItemsSettledIff(vs);
    case _ =>
  }

  lemma {:induction false} EntriesSettledIff(es: seq<Entry>)
    ensures Normalize(es) == es <==> SettledEntries(es)
  {
    if es != [] {
      NormalizeSettledIff(es[0].value);
      EntriesSettledIff(es[1..]);
      var first := Entry(es[0].key, NormalizeValue(es[0].value));
      assert es == [es[0]] + es[1..] && Normalize(es)[1..] == Normalize(es[1..]) && Normalize(es)[0] == first;
    }
  }

  lemma {:induction false} ItemsSettledIff(vs: seq<Value>)
    ensures NormalizeItems(vs) == vs <==> SettledItems(vs)
  {
    if vs != [] {
      ItemsSettledIff(vs[1..]);
      match vs[0] {
        case Dict(es) => EntriesSettledIff(es);
        case _ =>
      }
      assert vs == [vs[0]] + vs[1..] && NormalizeItems(vs)[1..] == NormalizeItems(vs[1..]);
    }
  }
}
