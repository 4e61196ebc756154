/**
 Applying a nested payload to an object graph with merge semantics
 (app/controllers/assets/relationship_handler.py, `RelationshipExecutor`).

 The session's objects live in a map from references to records, so two fields
 that hold the same reference are the same object.
 */
module Merge {
  import opened Prelude
  import opened Payload

  type Class = string

  // --------------------------------------------------------------------
  // Mapped classes
  // --------------------------------------------------------------------

  datatype Direction = ManyToOne | OneToMany | ManyToMany

  datatype RelType = RelManyToOne | RelOneToOne | RelOneToMany | RelManyToMany {
    predicate EndsWithMany() { RelOneToMany? || RelManyToMany? }
  }

  datatype Field = Column(unique: bool) | Relation(target: Class, uselist: bool, direction: Direction) {
    /** `ORMTransformer.rel_type`. */
    function RelType(): RelType
      requires Relation?
    {
      if !uselist then (if direction.ManyToOne? then RelManyToOne else RelOneToOne)
      else (if direction.ManyToOne? then RelOneToMany else RelManyToMany)
    }
  }

  /** The mapped classes, and the unique column values stored in the database,
      which is what queries see while nothing is flushed. */
  datatype Env = Env(schema: map<Class, map<string, Field>>, stored: map<Ref, map<string, Value>>) {
    function FieldOf(c: Class, k: string): Option<Field> {
      if c in schema && k in schema[c] then Some(schema[c][k]) else None
    }

    /** No class has an attribute called like the marker. */
    predicate Unmarked() {
      forall c :: c in schema ==> REL !in schema[c]
    }
  }

  // --------------------------------------------------------------------
  // Object graph
  // --------------------------------------------------------------------

  /** A persistent object is its identity-map key; a pending one has a serial number. */
  datatype Ref = Row(cls: Class, id: int) | New(serial: nat)

  datatype Content = Val(v: Value) | Link(r: Ref) | Links(rs: seq<Ref>)

  datatype Obj = Obj(cls: Class, fields: map<string, Content>)

  datatype Graph = Graph(heap: map<Ref, Obj>, next: nat, deleted: set<Ref>) {
    function Get(r: Ref, f: string): Option<Content> {
      if r in heap && f in heap[r].fields then Some(heap[r].fields[f]) else None
    }

    function Set(r: Ref, f: string, c: Content): Graph
      requires r in heap
    {
      this.(heap := heap[r := heap[r].(fields := heap[r].fields[f := c])])
    }

    /** The members of a collection attribute; unset means empty. */
    function Members(r: Ref, f: string): seq<Ref> {
      MembersOf(Get(r, f))
    }

    function Create(c: Class): Graph {
      Graph(heap[New(next) := Obj(c, map[])], next + 1, deleted)
    }

    /** Serial numbers are handed out once; rows are of the class they are stored under. */
    ghost predicate Valid() {
      && (forall r :: r in heap && r.New? ==> r.serial < next)
      && (forall c, i :: Row(c, i) in heap ==> heap[Row(c, i)].cls == c)
    }
  }

  function MembersOf(c: Option<Content>): seq<Ref> {
    match c
    case Some(Links(rs)) => rs
    case _ => []
  }

  /** Objects are never dropped from the session and keep their class; whatever
      is added is a new object. */
  ghost predicate Grows(g: Graph, h: Graph) {
    && g.next <= h.next
    && (forall r :: r in g.heap ==> r in h.heap && h.heap[r].cls == g.heap[r].cls)
    && (forall r :: r in h.heap && r !in g.heap ==> r.New? && g.next <= r.serial)
  }

  // --------------------------------------------------------------------
  // The executor
  // --------------------------------------------------------------------

  predicate CanDelete(es: seq<Entry>) {
    Lookup(es, "action") == Some(Str("delete"))
  }

  predicate HasId(es: seq<Entry>) {
    match Lookup(es, "id")
    case None => false
    case Some(v) => v.Truthy()
  }

  /** `db.get`: the object with this primary key, if there is one. */
  function GetRow(g: Graph, c: Class, id: Value): Option<Ref> {
    if id.Int? && Row(c, id.n) in g.heap then Some(Row(c, id.n)) else None
  }

  function RemoveFirst(rs: seq<Ref>, r: Ref): seq<Ref> {
    if rs == [] then [] else if rs[0] == r then rs[1..] else [rs[0]] + RemoveFirst(rs[1..], r)
  }

  /** Append the existing members that the payload did not mention. */
  function Extend(merged: seq<Ref>, existing: seq<Ref>): seq<Ref>
    decreases |existing|
  {
    if existing == [] then merged
    else Extend(if existing[0] in merged then merged else merged + [existing[0]], existing[1..])
  }

  datatype Match = NoMatch | Unique(r: Ref) | Ambiguous

  /** Whether a stored row passes every filter built from the item. */
  predicate Passes(env: Env, c: Class, es: seq<Entry>, r: Ref) {
    && r in env.stored && r.Row? && r.cls == c
    && forall k :: k in UniqueKeys(env, c, es) ==>
         k in env.stored[r] && Some(env.stored[r][k]) == Lookup(es, k)
  }

  /** The unique columns for which the item gives a value. */
  function UniqueKeys(env: Env, c: Class, es: seq<Entry>): set<string> {
    if c !in env.schema then {}
    else set k | k in env.schema[c] && env.schema[c][k] == Column(true)
                 && Lookup(es, k).Some? && Lookup(es, k) != Some(Null)
  }

  function FindMatch(env: Env, g: Graph, c: Class, es: seq<Entry>): (m: Match)
    ensures m.Unique? ==> m.r in g.heap && m.r.Row? && m.r.cls == c && Passes(env, c, es, m.r)
  {
    if UniqueKeys(env, c, es) == {} then NoMatch
    else
      var found := set r | r in env.stored && r in g.heap && Passes(env, c, es, r);
      if found == {} then NoMatch
      else if |found| == 1 then
        SingletonElement(found);
        var r :| r in found;
        Unique(r)
      else Ambiguous
  }

  lemma SingletonElement<T>(s: set<T>)
    requires |s| == 1
    ensures forall x, y :: x in s && y in s ==> x == y
  {
    forall x, y | x in s && y in s ensures x == y {
      assert |s - {x}| == 0;
    }
  }

  lemma TwoElements<T>(s: set<T>)
    requires |s| >= 2
    ensures exists x, y :: x in s && y in s && x != y
  {
    var x :| x in s;
    assert |s - {x}| >= 1;
    var y :| y in s - {x};
  }

  /** The item gives unique column `k` a value. */
  predicate Asks(env: Env, c: Class, es: seq<Entry>, k: string) {
    && c in env.schema && k in env.schema[c] && env.schema[c][k] == Column(true)
    && Lookup(es, k).Some? && Lookup(es, k) != Some(Null)
  }

  /** `r` is a stored row of the class that has all the unique values of the item. */
  ghost predicate Has(env: Env, c: Class, es: seq<Entry>, r: Ref) {
    && r.Row? && r.cls == c && r in env.stored
    && forall k :: Asks(env, c, es, k) ==> k in env.stored[r] && Some(env.stored[r][k]) == Lookup(es, k)
  }

  lemma AsksMeaning(env: Env, c: Class, es: seq<Entry>)
    ensures forall k :: k in UniqueKeys(env, c, es) <==> Asks(env, c, es, k)
    ensures forall r :: Passes(env, c, es, r) <==> Has(env, c, es, r)
  {
  }

  /** No match means that the item gives no unique value or that every stored row of the
      class differs in one; a unique match is the only row that has them all; otherwise
      two rows do, and the query raises. */
  lemma FindMatchMeaning(env: Env, g: Graph, c: Class, es: seq<Entry>)
    ensures
      var m := FindMatch(env, g, c, es);
      && (m.NoMatch? <==> (forall k :: !Asks(env, c, es, k)) || forall r :: r in g.heap ==> !Has(env, c, es, r))
      && (m.Unique? ==> m.r in g.heap && forall r :: r in g.heap ==> (Has(env, c, es, r) <==> r == m.r))
      && (m.Ambiguous? <==>
            && (exists k :: Asks(env, c, es, k))
            && exists x, y :: x in g.heap && y in g.heap && x != y && Has(env, c, es, x) && Has(env, c, es, y))
  {
    AsksMeaning(env, c, es);
    hide UniqueKeys, Passes, Has, Asks;
    var found := set r | r in env.stored && r in g.heap && Passes(env, c, es, r);
    assert forall r :: r in found <==> r in g.heap && Has(env, c, es, r) by { HasIsStored(env, c, es); }
    assert UniqueKeys(env, c, es) == {} <==> forall k :: !Asks(env, c, es, k);
    if |found| == 1 { SingletonElement(found); }
    if |found| >= 2 { TwoElements(found); }
  }

  lemma HasIsStored(env: Env, c: Class, es: seq<Entry>)
    ensures forall r :: Has(env, c, es, r) ==> r in env.stored
  {
  }

  /** `apply`; None stands for a raised exception. A null id is dropped. */
  function Apply(env: Env, g: Graph, r: Ref, es: seq<Entry>): (h: Option<Graph>)
    requires r in g.heap && g.Valid()
    ensures h.Some? ==> h.value.Valid() && Grows(g, h.value)
    decreases es, 2
  {
    if es == [] then Some(g)
    else match ApplyField(env, g, r, es[0])
      case None => None
      case Some(g1) => Apply(env, g1, r, es[1..])
  }

  function ApplyField(env: Env, g: Graph, r: Ref, e: Entry): (h: Option<Graph>)
    requires r in g.heap && g.Valid()
    ensures h.Some? ==> h.value.Valid() && Grows(g, h.value)
    decreases e, 1
  {
    if e.key == "id" && e.value.Null? then Some(g)
    else match env.FieldOf(g.heap[r].cls, e.key)
      case None => Some(g)
      case Some(Column(_)) => Some(g.Set(r, e.key, Val(e.value)))
      case Some(Relation(target, uselist, direction)) =>
        if Relation(target, uselist, direction).RelType().EndsWithMany()
        then HandleMany(env, g, r, e.key, e.value, target, Relation(target, uselist, direction).RelType())
        else HandleOne(env, g, r, e.key, e.value, target)
  }

  /** A deletion always raises, and so does a value without a `get` method. */
  function HandleOne(env: Env, g: Graph, r: Ref, f: string, v: Value, target: Class): (h: Option<Graph>)
    requires r in g.heap && g.Valid()
    ensures h.Some? ==> h.value.Valid() && Grows(g, h.value)
    decreases v, 0
  {
    if !v.Dict? || CanDelete(v.entries) then None
    else match Target(env, g, v.entries, target, false)
      case None => None
      case Some((g1, q)) =>
        match Apply(env, g1, q, v.entries)
        case None => None
        case Some(g2) => Some(g2.Set(r, f, Link(q)))
  }

  /** The object an item stands for: the row it names, the row matching its
      unique columns (collections only), or a new object. */
  function Target(env: Env, g: Graph, es: seq<Entry>, c: Class, matching: bool): (t: Option<(Graph, Ref)>)
    requires g.Valid()
    ensures t.Some? ==> t.value.0.Valid() && Grows(g, t.value.0) && t.value.1 in t.value.0.heap
  {
    if HasId(es) then
      match GetRow(g, c, Lookup(es, "id").value)
      case None => None
      case Some(q) => Some((g, q))
    else match if matching then FindMatch(env, g, c, es) else NoMatch
      case Ambiguous => None
      case Unique(q) => Some((g, q))
      case NoMatch => Some((g.Create(c), New(g.next)))
  }

  function HandleMany(env: Env, g: Graph, r: Ref, f: string, v: Value, target: Class, rel: RelType): (h: Option<Graph>)
    requires r in g.heap && g.Valid()
    ensures h.Some? ==> h.value.Valid() && Grows(g, h.value)
    decreases v, 0
  {
    match v
    case List(items) =>
      (match MergeItems(env, g, items, target, rel, [], g.Members(r, f))
       case None => None
       case Some(Merged(g1, merged, existing)) => Some(g1.Set(r, f, Links(Extend(merged, existing)))))
    case _ =>
      if v.Truthy() then None else Some(g.Set(r, f, Links(Extend([], g.Members(r, f)))))
  }

  datatype Merged = Merged(g: Graph, merged: seq<Ref>, existing: seq<Ref>)

  function MergeItems(env: Env, g: Graph, items: seq<Value>, target: Class, rel: RelType,
                      merged: seq<Ref>, existing: seq<Ref>): (m: Option<Merged>)
    requires g.Valid()
    ensures m.Some? ==> m.value.g.Valid() && Grows(g, m.value.g)
    decreases items, 0
  {
    if items == [] then Some(Merged(g, merged, existing))
    else if !items[0].Dict? then None
    else if HasId(items[0].entries) && CanDelete(items[0].entries) then
      (match Remove(g, GetRow(g, target, Lookup(items[0].entries, "id").value), rel, existing)
       case None => None
       case Some((g1, existing1)) => MergeItems(env, g1, items[1..], target, rel, merged, existing1))
    else match Target(env, g, items[0].entries, target, true)
      case None => None
      case Some((g1, q)) =>
        match Apply(env, g1, q, items[0].entries)
        case None => None
        case Some(g2) => MergeItems(env, g2, items[1..], target, rel, merged + [q], existing)
  }

  /** One step of the loop over the items. */
  lemma MergeItemsStep(env: Env, g: Graph, items: seq<Value>, target: Class, rel: RelType,
                       merged: seq<Ref>, existing: seq<Ref>)
    requires g.Valid() && items != []
    ensures !items[0].Dict? ==> MergeItems(env, g, items, target, rel, merged, existing) == None
    ensures items[0].Dict? ==>
      var es := items[0].entries;
      MergeItems(env, g, items, target, rel, merged, existing) ==
      if HasId(es) && CanDelete(es) then
        (match Remove(g, GetRow(g, target, Lookup(es, "id").value), rel, existing)
         case None => None
         case Some(x) => MergeItems(env, x.0, items[1..], target, rel, merged, x.1))
      else match Target(env, g, es, target, true)
        case None => None
        case Some(x) =>
          match Apply(env, x.0, x.1, es)
          case None => None
          case Some(g2) => MergeItems(env, g2, items[1..], target, rel, merged + [x.1], existing)
  {
  }

  lemma MergeItemsNone(env: Env, g: Graph, target: Class, rel: RelType, merged: seq<Ref>, existing: seq<Ref>)
    requires g.Valid()
    ensures MergeItems(env, g, [], target, rel, merged, existing) == Some(Merged(g, merged, existing))
  {
  }

  /** A write shows nowhere else. */
  lemma SetElsewhere(g: Graph, r: Ref, f: string, x: Content, q: Ref, k: string)
    requires r in g.heap && (q != r || k != f)
    ensures g.Set(r, f, x).Get(q, k) == g.Get(q, k)
  {
  }

  lemma GrowsReflexive(g: Graph)
    ensures Grows(g, g)
  {
  }

  lemma GrowsTransitive(g: Graph, h: Graph, k: Graph)
    requires Grows(g, h) && Grows(h, k)
    ensures Grows(g, k)
  {
  }

  /** `rmv_frm_parent` for a collection: unlink from a many-to-many list, where
      a missing row is unlinked from nothing; otherwise delete the row. */
  function Remove(g: Graph, q: Option<Ref>, rel: RelType, existing: seq<Ref>): (x: Option<(Graph, seq<Ref>)>)
    requires g.Valid()
    ensures x.Some? ==> x.value.0.Valid() && Grows(g, x.value.0)
  {
    match q
    case None => if rel.RelManyToMany? then Some((g, existing)) else None
    case Some(o) =>
      if rel.RelManyToMany? then Some((g, RemoveFirst(existing, o)))
      else Some((g.(deleted := g.deleted + {o}), existing))
  }
}
