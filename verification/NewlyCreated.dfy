/**
 The cache of newly created assets: a tracking set, one expiring key per asset
 and one JSON object, kept in step while keys expire on their own and the expiry
 events are handled later
 (app/controllers/activity/asset_routine_methods.py and auto_category_util_methods.py).
 */
module NewlyCreated {
  import opened Prelude

  type AssetId = int
  type Data = string

  /** `json` is None when the hash field is absent; `pending` holds the expiry
      events that were published and not yet handled. */
  datatype Cache = Cache(tracked: set<AssetId>, live: map<AssetId, Data>,
                         json: Option<map<AssetId, Data>>, pending: multiset<AssetId>)
  {
    function Loaded(): map<AssetId, Data> {
      match json case None => map[] case Some(m) => m
    }

    function Lookup(id: AssetId): Option<Data> {
      if id in Loaded() then Some(Loaded()[id]) else None
    }
  }

  const EMPTY := Cache({}, map[], None, multiset{})

  datatype Op =
    | Create(id: AssetId, data: Data)   // cached as newly created
    | Update(id: AssetId, data: Data)   // cached as an update
    | Remove(id: AssetId)
    | RemoveAll
    | Expire(id: AssetId)               // the key's time is up; Redis publishes an event
    | Handle(id: AssetId)               // the expiry handler runs on one event

  function Dropped(json: Option<map<AssetId, Data>>, id: AssetId): Option<map<AssetId, Data>> {
    match json
    case None => None
    case Some(m) => if id !in m then json else if m - {id} == map[] then None else Some(m - {id})
  }

  function Step(s: Cache, op: Op): Cache {
    match op
    case Create(id, data) =>
      s.(tracked := s.tracked + {id}, live := s.live[id := data], json := Some(s.Loaded()[id := data]))
    case Update(id, data) =>
      if id in s.live then s.(json := Some(s.Loaded()[id := data])) else s
    case Remove(id) =>
      s.(tracked := s.tracked - {id}, live := s.live - {id}, json := Dropped(s.json, id))
    case RemoveAll =>
      s.(tracked := {}, live := s.live - s.tracked, json := None)
    case Expire(id) =>
      if id in s.live then s.(live := s.live - {id}, pending := s.pending + multiset{id}) else s
    case Handle(id) =>
      s.(tracked := s.tracked - {id}, pending := s.pending - multiset{id},
         json := match s.json case None => None case Some(m) => Some(m - {id}))
  }

  /** The three structures agree up to expirations still to be handled. */
  ghost predicate InStep(s: Cache) {
    && s.Loaded().Keys == s.tracked
    && s.live.Keys <= s.tracked
    && forall id :: id in s.tracked ==> id in s.live || id in s.pending
  }

  /** No live key has an old expiry event waiting for it. */
  ghost predicate NoStaleEvent(s: Cache) {
    forall id :: id in s.live ==> id !in s.pending
  }

  /** Keys expire only while live, handlers run only on published events, and an
      id is not created anew while an old expiry of it is unhandled. */
  predicate Enabled(s: Cache, op: Op) {
    match op
    case Create(id, _) => id !in s.pending
    case Expire(id) => id in s.live
    case Handle(id) => id in s.pending
    case _ => true
  }

  /** Handling an event keeps the structures in step exactly when the key has not
      been set again in the meantime. */
  lemma HandleInStepIff(s: Cache, id: AssetId)
    requires InStep(s) && id in s.pending
    ensures InStep(Step(s, Handle(id))) <==> id !in s.live
  {
    var t := Step(s, Handle(id));
    assert t.Loaded().Keys == s.Loaded().Keys - {id};
    if id in s.live { assert id in t.live && id !in t.tracked; }
  }

  /** Creating an id again leaves no stale event behind exactly when its old
      expiry has been handled. */
  lemma CreateNoStaleEventIff(s: Cache, id: AssetId, data: Data)
    requires NoStaleEvent(s)
    ensures NoStaleEvent(Step(s, Create(id, data))) <==> Enabled(s, Create(id, data))
  {
    assert id in Step(s, Create(id, data)).live;
  }

  lemma DroppedKeys(s: Cache, id: AssetId)
    ensures (match Dropped(s.json, id) case None => {} case Some(m) => m.Keys) == s.Loaded().Keys - {id}
  {
    if s.json.Some? && id in s.json.value {
      assert (s.json.value - {id}).Keys == s.json.value.Keys - {id};
      if s.json.value - {id} == map[] { assert (s.json.value - {id}).Keys == {}; }
    }
  }

  lemma StepKeepsInStep(s: Cache, op: Op)
    requires InStep(s) && NoStaleEvent(s) && Enabled(s, op)
    ensures InStep(Step(s, op)) && NoStaleEvent(Step(s, op))
  {
    var t := Step(s, op);
    match op
    case Remove(id) => DroppedKeys(s, id);
    case Handle(id) =>
      HandleInStepIff(s, id);
    case Expire(id) =>
      // the live key had no event, so exactly one is pending now
      assert t.live.Keys == s.live.Keys - {id};
    case _ =>
  }

  function Run(s: Cache, ops: seq<Op>): Cache
    decreases |ops|
  {
    if ops == [] then s else Run(Step(s, ops[0]), ops[1..])
  }

  predicate AllEnabled(s: Cache, ops: seq<Op>)
    decreases |ops|
  {
    ops == [] || (Enabled(s, ops[0]) && AllEnabled(Step(s, ops[0]), ops[1..]))
  }

  lemma {:induction false} RunKeepsInStep(s: Cache, ops: seq<Op>)
    requires InStep(s) && NoStaleEvent(s) && AllEnabled(s, ops)
    ensures InStep(Run(s, ops)) && NoStaleEvent(Run(s, ops))
    decreases |ops|
  {
    if ops != [] {
      StepKeepsInStep(s, ops[0]);
      RunKeepsInStep(Step(s, ops[0]), ops[1..]);
    }
  }

  /** In every reachable state the object's keys are the tracked ids, every live
      key is tracked, and a tracked id without a live key has an unhandled expiry
      event; once all events are handled the three structures agree. */
  lemma EveryRunInStep(ops: seq<Op>)
    requires AllEnabled(EMPTY, ops)
    ensures
      var s := Run(EMPTY, ops);
      InStep(s) && (s.pending == multiset{} ==> s.live.Keys == s.tracked == s.Loaded().Keys)
  {
    RunKeepsInStep(EMPTY, ops);
    var s := Run(EMPTY, ops);
    if s.pending == multiset{} {
      assert forall id :: id in s.tracked ==> id in s.live.Keys;
    }
  }

  /** Keys expire only while live and handlers run only on published events; ids may
      be created again at any time. */
  predicate AllPossible(s: Cache, ops: seq<Op>)
    decreases |ops|
  {
    ops == [] ||
    (&& (ops[0].Expire? ==> ops[0].id in s.live)
     && (ops[0].Handle? ==> ops[0].id in s.pending)
     && AllPossible(Step(s, ops[0]), ops[1..]))
  }

  /** Every state of the run is in step. */
  ghost predicate AlwaysInStep(s: Cache, ops: seq<Op>)
    decreases |ops|
  {
    InStep(s) && (ops == [] || AlwaysInStep(Step(s, ops[0]), ops[1..]))
  }

  /** No expiry event is handled while the key of its id lives again. */
  predicate HandlesOnlyDead(s: Cache, ops: seq<Op>)
    decreases |ops|
  {
    ops == [] ||
    (&& (ops[0].Handle? ==> ops[0].id !in s.live)
     && HandlesOnlyDead(Step(s, ops[0]), ops[1..]))
  }

  lemma OthersKeepInStep(s: Cache, op: Op)
    requires InStep(s) && !op.Handle? && (op.Expire? ==> op.id in s.live)
    ensures InStep(Step(s, op))
  {
    match op
    case Remove(id) => DroppedKeys(s, id);
    case _ =>
  }

  /** Without any restriction on creation, a run stays in step throughout exactly when
      it never handles an old event of a live key. */
  lemma {:induction false} RunInStepIff(s: Cache, ops: seq<Op>)
    requires InStep(s) && AllPossible(s, ops)
    ensures AlwaysInStep(s, ops) <==> HandlesOnlyDead(s, ops)
    decreases |ops|
  {
    if ops != [] {
      var t := Step(s, ops[0]);
      if ops[0].Handle? {
        HandleInStepIff(s, ops[0].id);
      } else {
        OthersKeepInStep(s, ops[0]);
      }
      hide InStep, Step;
      if InStep(t) { RunInStepIff(t, ops[1..]); }
    }
  }

  lemma EveryRunInStepIff(ops: seq<Op>)
    requires AllPossible(EMPTY, ops)
    ensures AlwaysInStep(EMPTY, ops) <==> HandlesOnlyDead(EMPTY, ops)
  {
    RunInStepIff(EMPTY, ops);
  }

  // --------------------------------------------------------------------
  // Lookup
  // --------------------------------------------------------------------

  /** The operation stores `data` for `id`: an update only while the key lives. */
  predicate Writes(s: Cache, op: Op, id: AssetId) {
    (op.Create? || (op.Update? && id in s.live)) && op.id == id
  }

  predicate Forgets(op: Op, id: AssetId) {
    op.RemoveAll? || ((op.Remove? || op.Handle?) && op.id == id)
  }

  /** What lookup returns after one operation, in terms of what it returned before. */
  lemma LookupAfter(s: Cache, op: Op, id: AssetId)
    ensures Step(s, op).Lookup(id) ==
            if Writes(s, op, id) then Some(op.data)
            else if Forgets(op, id) then None
            else s.Lookup(id)
  {
  }

  /** What any operation leaves in the other structures: the tracking set, the live keys,
      the unhandled events and the stored object, which is dropped when a removal empties
      it but not when an event handler does. */
  lemma StructuresAfter(s: Cache, op: Op, id: AssetId)
    ensures
      var t := Step(s, op);
      && (id in t.tracked <==> (op.Create? && op.id == id) || (id in s.tracked && !Forgets(op, id)))
      && (id in t.live <==>
            || (op.Create? && op.id == id)
            || (id in s.live && !((op.Remove? || op.Expire?) && op.id == id) && !(op.RemoveAll? && id in s.tracked)))
      && t.pending[id] ==
           (if op.Expire? && op.id == id && id in s.live then s.pending[id] + 1
            else if op.Handle? && op.id == id && s.pending[id] > 0 then s.pending[id] - 1 else s.pending[id])
      && (t.json == None <==>
            || op.RemoveAll? || (op.Remove? && s.json.Some? && s.json.value.Keys == {op.id})
            || (s.json == None && !op.Create? && !(op.Update? && op.id in s.live)))
  {
    match op
    case Remove(i) =>
      DroppedKeys(s, i);
      if s.json.Some? && i in s.json.value {
        assert (s.json.value - {i}).Keys == s.json.value.Keys - {i};
        assert s.json.value - {i} == map[] <==> (s.json.value - {i}).Keys == {};
      }
    case _ =>
  }

  /** Nothing from here on writes or forgets `id`. */
  predicate Quiet(s: Cache, ops: seq<Op>, id: AssetId)
    decreases |ops|
  {
    ops == [] || (!Writes(s, ops[0], id) && !Forgets(ops[0], id) && Quiet(Step(s, ops[0]), ops[1..], id))
  }

  lemma {:induction false} QuietKeepsLookup(s: Cache, ops: seq<Op>, id: AssetId)
    requires Quiet(s, ops, id)
    ensures Run(s, ops).Lookup(id) == s.Lookup(id)
    decreases |ops|
  {
    if ops != [] {
      LookupAfter(s, ops[0], id);
      QuietKeepsLookup(Step(s, ops[0]), ops[1..], id);
    }
  }

  /** Lookup returns the data written last. */
  lemma LookupReturnsLastWrite(s: Cache, write: Op, later: seq<Op>, id: AssetId)
    requires Writes(s, write, id) && Quiet(Step(s, write), later, id)
    ensures Run(Step(s, write), later).Lookup(id) == Some(write.data)
  {
    LookupAfter(s, write, id);
    QuietKeepsLookup(Step(s, write), later, id);
  }

  // --------------------------------------------------------------------
  // The handlers as they run
  // --------------------------------------------------------------------

  class RedisCache {
    var tracked: set<AssetId>
    var live: map<AssetId, Data>
    var json: Option<map<AssetId, Data>>
    var pending: multiset<AssetId>

    function State(): Cache
      reads this
    {
      Cache(tracked, live, json, pending)
    }

    constructor ()
      ensures State() == EMPTY
    {
      tracked, live, json, pending := {}, map[], None, multiset{};
    }

    method CreateOrUpdate(id: AssetId, data: Data, newlyCreated: bool)
      modifies this
      ensures State() == Step(old(State()), if newlyCreated then Create(id, data) else Update(id, data))
    {
      var cacheable := id in live || newlyCreated;
      if newlyCreated {
        tracked := tracked + {id};
        live := live[id := data];
      }
      if cacheable {
        var loaded := match json case None => map[] case Some(m) => m;
        json := Some(loaded[id := data]);
      }
    }

    method RemoveAsset(id: AssetId)
      modifies this
      ensures State() == Step(old(State()), Remove(id))
    {
      live := live - {id};
      tracked := tracked - {id};
      if json.Some? {
        var loaded := json.value;
        if id in loaded {
          loaded := loaded - {id};
          json := if loaded != map[] then Some(loaded) else None;
        }
      }
    }

    method RemoveAllAssets()
      modifies this
      ensures State() == Step(old(State()), RemoveAll)
    {
      var ids := tracked;
      if ids != {} {
        live := live - ids;
      }
      tracked := {};
      json := None;
    }

    /** Redis drops an expired key and publishes the event. Lookups do not notice
        until the event is handled. */
    method ExpireKey(id: AssetId)
      requires id in live
      modifies this
      ensures State() == Step(old(State()), Expire(id))
      ensures forall i :: State().Lookup(i) == old(State()).Lookup(i)
    {
      live := live - {id};
      pending := pending + multiset{id};
    }

    method HandleExpiry(id: AssetId)
      requires id in pending
      modifies this
      ensures State() == Step(old(State()), Handle(id))
    {
      pending := pending - multiset{id};
      tracked := tracked - {id};
      if json.Some? {
        json := Some(json.value - {id});
      }
    }

    /** While the structures are in step a hit is a tracked id: one whose key lives, or
        has expired without its event having been handled. */
    method GetProperty(id: AssetId) returns (data: Option<Data>)
      ensures data == State().Lookup(id)
      ensures InStep(State()) ==> (data.Some? <==> id in tracked)
      ensures InStep(State()) && data.Some? ==> id in live || id in pending
    {
      var loaded := match json case None => map[] case Some(m) => m;
      data := if id in loaded then Some(loaded[id]) else None;
    }
  }
}
