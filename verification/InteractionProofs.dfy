/**
 What interaction persistence guarantees: the counters are exact sums and head
 counts in every reachable state, and the collapsed batch refines plain replay.
 */
module InteractionProofs {
  import opened Prelude
  import opened Interactions

  // --------------------------------------------------------------------
  // One event keeps the counters exact
  // --------------------------------------------------------------------

  lemma EnsureRowKeepsConsistent(db: Db, u: User, a: AssetId)
    requires Consistent(db) && a in db.assets
    ensures Consistent(EnsureRow(db, u, a))
  {
    if !HasRow(db, u, a) {
      var r := Row(u, a, FRESH_STATS);
      FindRowFirst(db.rows, u, a);
      forall b, l ensures Sum(db.rows + [r], b, l) == Sum(db.rows, b, l) {
        SumAppend(db.rows, r, b, l);
      }
    }
  }

  /** The net effect of events on one statistic: the last action, if any, and
      how many events were applied. */
  datatype Move = Move(last: Option<bool>, n: nat) {
    function Then(m: Move): Move {
      Move(if m.last.Some? then m.last else last, n + m.n)
    }
  }

  const STAY := Move(None, 0)

  /** The kinds for which the last event of a list decides. */
  predicate IsFlag(k: Kind) {
    k == Like || k == Save || k == Cart
  }

  /** A flag takes the last action; a tally grows by one per applied event,
      except an agent's views of the agent's own property. */
  function Final(k: Kind, own: bool, v: nat, m: Move): nat {
    if IsFlag(k) then (match m.last case None => v case Some(x) => if x then 1 else 0)
    else if k == SearchResultAppearance || (k == View && own) then v
    else v + m.n
  }

  /** An event of kind `k` changes no statistic or counter of another kind. */
  lemma OtherKindsStay(s: Stats, x: Asset, k: Kind, action: bool, own: bool, l: Kind)
    requires l != k
    ensures StatsAfter(s, k, action, own).Value(l) == s.Value(l)
    ensures AssetAfter(x, s, k, action, own).Counter(l) == x.Counter(l)
  {
  }

  /** The statistic takes its next value, and the counter moves with it unless
      the clamp bites, which needs a counter below the statistic. */
  lemma SameKindMoves(s: Stats, x: Asset, k: Kind, action: bool, own: bool)
    ensures StatsAfter(s, k, action, own).Value(k) == Final(k, own, s.Value(k), Move(Some(action), 1))
    ensures x.Counter(k) >= s.Value(k) ==>
              AssetAfter(x, s, k, action, own).Counter(k) - x.Counter(k)
              == StatsAfter(s, k, action, own).Value(k) - s.Value(k)
  {
  }

  /** In a consistent state the clamp is idle: the counter of the touched asset
      moves by exactly what the user's statistic moves by. */
  lemma ClampIsIdle(db: Db, u: User, a: AssetId, k: Kind, action: bool)
    requires Consistent(db) && a in db.assets && HasRow(db, u, a)
    ensures
      var own := db.assets[a].agent == u;
      var s := StatsOf(db, u, a).value;
      var x := AssetAfter(db.assets[a], s, k, action, own);
      && db.assets[a].Counter(k) >= s.Value(k)
      && x.Counter(k) - db.assets[a].Counter(k) == StatsAfter(s, k, action, own).Value(k) - s.Value(k)
  {
    var i := FindRow(db.rows, u, a).value;
    SumUpdate(db.rows, i, db.rows[i], a, k);
    SameKindMoves(db.rows[i].stats, db.assets[a], k, action, db.assets[a].agent == u);
  }

  lemma EventCounterAt(db: Db, u: User, a: AssetId, k: Kind, e: Event, b: AssetId, l: Kind)
    requires Consistent(db) && a in db.assets && HasRow(db, u, a) && b in db.assets
    ensures
      var after := ApplyEvent(db, u, a, k, e);
      after.assets[b].Counter(l) == Sum(after.rows, b, l)
  {
    var after := ApplyEvent(db, u, a, k, e);
    var i := FindRow(db.rows, u, a).value;
    SumUpdate(db.rows, i, after.rows[i], b, l);
    if b == a {
      if l == k {
        ClampIsIdle(db, u, a, k, e.action);
      } else {
        OtherKindsStay(db.rows[i].stats, db.assets[a], k, e.action, db.assets[a].agent == u, l);
      }
    }
  }

  lemma EventKeepsConsistent(db: Db, u: User, a: AssetId, k: Kind, e: Event)
    requires Consistent(db) && a in db.assets && HasRow(db, u, a)
    ensures Consistent(ApplyEvent(db, u, a, k, e))
  {
    var after := ApplyEvent(db, u, a, k, e);
    assert forall j :: 0 <= j < |db.rows| ==>
      after.rows[j].user == db.rows[j].user && after.rows[j].asset == db.rows[j].asset;
    forall b, l | b in after.assets ensures after.assets[b].Counter(l) == Sum(after.rows, b, l) {
      EventCounterAt(db, u, a, k, e, b, l);
    }
  }

  // --------------------------------------------------------------------
  // Pointwise effect
  // --------------------------------------------------------------------

  /** Everything the acting user and the public can see at one (asset, kind). */
  datatype Obs = Obs(value: nat, counter: int, logged: nat, own: bool)

  /** Whether the user is the agent who lists the property. */
  predicate Owns(db: Db, u: User, b: AssetId) {
    b in db.assets && db.assets[b].agent == u
  }

  function Observe(db: Db, u: User, b: AssetId, l: Kind): Obs {
    Obs(UserValue(db, u, b, l), Counter(db, b, l), Logged(db.events, u, b, l), Owns(db, u, b))
  }

  /** The observation moved: the counter follows the user's statistic. */
  function Moved(o: Obs, k: Kind, m: Move): Obs {
    var v := Final(k, o.own, o.value, m);
    o.(value := v, counter := o.counter + v - o.value, logged := o.logged + m.n)
  }

  /** Moving twice is moving once: the later action wins, the tallies add up. */
  lemma MovedThen(o: Obs, k: Kind, m: Move, n: Move)
    ensures Moved(Moved(o, k, m), k, n) == Moved(o, k, m.Then(n))
    ensures Moved(o, k, STAY) == o
  {
  }

  /** A tally does not look at the last action. */
  lemma TallyIgnoresLast(o: Obs, k: Kind, m: Move, n: Move)
    requires !k.Singleton() && m.n == n.n
    ensures Moved(o, k, m) == Moved(o, k, n)
  {
  }

  lemma EnsureRowAt(db: Db, u: User, a: AssetId, v: User, b: AssetId, l: Kind)
    ensures v != u ==> StatsOf(EnsureRow(db, u, a), v, b) == StatsOf(db, v, b)
    ensures Observe(EnsureRow(db, u, a), u, b, l) == Observe(db, u, b, l)
    ensures HasRow(EnsureRow(db, u, a), u, b) <==> HasRow(db, u, b) || a == b
  {
    if !HasRow(db, u, a) {
      FindRowAppend(db.rows, Row(u, a, FRESH_STATS), v, b);
      FindRowAppend(db.rows, Row(u, a, FRESH_STATS), u, b);
    }
  }

  lemma LoggedAppend(events: seq<EventRow>, e: EventRow, v: User, b: AssetId, l: Kind)
    ensures Logged(events + [e], v, b, l) ==
            Logged(events, v, b, l) + (if e.user == v && e.asset == b && e.kind == l then 1 else 0)
  {
    assert (events + [e])[..|events|] == events;
  }

  /** Storing `t` and `x` shows exactly there. */
  lemma WriteBackAt(db: Db, u: User, a: AssetId, k: Kind, t: Stats, x: Asset, e: EventRow, b: AssetId, l: Kind)
    requires a in db.assets && HasRow(db, u, a)
    requires e.asset == a && e.kind == k && e.user == u && x.agent == db.assets[a].agent
    ensures
      var o := Observe(db, u, b, l);
      Observe(WriteBack(db, FindRow(db.rows, u, a).value, t, x, e), u, b, l) ==
      if b == a then Obs(t.Value(l), x.Counter(l), o.logged + (if l == k then 1 else 0), o.own)
      else o
  {
    var i := FindRow(db.rows, u, a).value;
    FindRowUpdate(db.rows, i, db.rows[i].(stats := t), u, b);
    LoggedAppend(db.events, e, u, b, l);
  }

  lemma {:induction false} EventAt(db: Db, u: User, a: AssetId, k: Kind, e: Event, b: AssetId, l: Kind)
    requires Consistent(db) && a in db.assets && HasRow(db, u, a)
    ensures Observe(ApplyEvent(db, u, a, k, e), u, b, l)
         == Moved(Observe(db, u, b, l), l, if b == a && l == k then Move(Some(e.action), 1) else STAY)
  {
    hide StatsAfter, AssetAfter, Consistent, Final, WriteBack;
    var o := Observe(db, u, b, l);
    var s, own := StatsOf(db, u, a).value, db.assets[a].agent == u;
    WriteBackAt(db, u, a, k, StatsAfter(s, k, e.action, own), AssetAfter(db.assets[a], s, k, e.action, own),
                EventRow(a, e.ts, k, u), b, l);
    if b == a && l == k {
      ClampIsIdle(db, u, a, k, e.action);
      SameKindMoves(s, db.assets[a], k, e.action, own);
    } else {
      MovedThen(o, l, STAY, STAY);
      if b == a { OtherKindsStay(s, db.assets[a], k, e.action, own, l); }
    }
  }

  lemma EventAtOther(db: Db, u: User, a: AssetId, k: Kind, e: Event, v: User, b: AssetId)
    requires a in db.assets && HasRow(db, u, a) && v != u
    ensures StatsOf(ApplyEvent(db, u, a, k, e), v, b) == StatsOf(db, v, b)
  {
    var i := FindRow(db.rows, u, a).value;
    FindRowUpdate(db.rows, i, ApplyEvent(db, u, a, k, e).rows[i], v, b);
  }

  lemma AgentStays(db: Db, u: User, a: AssetId, k: Kind, e: Event, b: AssetId)
    requires a in db.assets && HasRow(db, u, a) && b in db.assets
    ensures ApplyEvent(db, u, a, k, e).assets[b].agent == db.assets[b].agent
  {
  }

  /** How many of `events` are applied: all of them, or one per distinct event
      not seen before. */
  function Applied(events: seq<Event>, seen: set<Event>, dedup: bool): nat {
    if dedup then |Elements(events) - seen| else |events|
  }

  lemma AppliedStep(events: seq<Event>, seen: set<Event>)
    requires events != []
    ensures Applied(events, seen, true) ==
            if events[0] in seen then Applied(events[1..], seen, true)
            else 1 + Applied(events[1..], seen + {events[0]}, true)
  {
    var all, rest := Elements(events), Elements(events[1..]);
    assert all == rest + {events[0]};
    if events[0] in seen {
      assert all - seen == rest - seen;
    } else {
      assert all - seen == (rest - (seen + {events[0]})) + {events[0]};
    }
  }

  function LastOf(events: seq<Event>): Option<bool> {
    if events == [] then None else Some(events[|events| - 1].action)
  }

  lemma AppliedWhole(events: seq<Event>, seen: set<Event>, later: set<Event>)
    requires events != []
    ensures Applied(events, seen, false) == 1 + Applied(events[1..], later, false)
  {
  }

  /** The first step of a list of events. */
  lemma ApplyEventsStep(s: Session, u: User, a: AssetId, k: Kind, events: seq<Event>, seen: set<Event>, dedup: bool)
    requires a in s.db.assets && HasRow(s.db, u, a) && events != []
    ensures ApplyEvents(s, u, a, k, events, seen, dedup) ==
            if dedup && events[0] in seen then ApplyEvents(s, u, a, k, events[1..], seen, dedup)
            else ApplyEvents(Session(ApplyEvent(s.db, u, a, k, events[0]), s.count + 1),
                             u, a, k, events[1..], seen + {events[0]}, dedup)
  {
  }

  lemma EventAppends(db: Db, u: User, a: AssetId, k: Kind, e: Event)
    requires a in db.assets && HasRow(db, u, a)
    ensures ApplyEvent(db, u, a, k, e).events == db.events + [EventRow(a, e.ts, k, u)]
  {
  }

  /** A list of events is counted and logged once per applied event. */
  lemma {:induction false} EventsCounted(s: Session, u: User, a: AssetId, k: Kind, events: seq<Event>,
                                         seen: set<Event>, dedup: bool)
    requires a in s.db.assets && HasRow(s.db, u, a)
    ensures
      var r := ApplyEvents(s, u, a, k, events, seen, dedup);
      && r.count == s.count + Applied(events, seen, dedup)
      && |r.db.events| == |s.db.events| + Applied(events, seen, dedup)
      && s.db.events <= r.db.events
    decreases |events|
  {
    if events == [] {
      assert Elements(events) - seen == {};
    } else {
      hide ApplyEvents, ApplyEvent, HasRow, Applied;
      ApplyEventsStep(s, u, a, k, events, seen, dedup);
      assert !dedup ==> Applied(events, seen, dedup) == 1 + Applied(events[1..], seen + {events[0]}, dedup) by {
        AppliedWhole(events, seen, seen + {events[0]});
      }
      if dedup { AppliedStep(events, seen); }
      EventAppends(s.db, u, a, k, events[0]);
      if dedup && events[0] in seen {
        EventsCounted(s, u, a, k, events[1..], seen, dedup);
      } else {
        EventsCounted(Session(ApplyEvent(s.db, u, a, k, events[0]), s.count + 1),
                      u, a, k, events[1..], seen + {events[0]}, dedup);
      }
    }
  }

  /** A list of events keeps the counters exact and leaves every asset's agent
      and every other user's statistics alone. */
  lemma {:induction false} EventsKeepConsistent(s: Session, u: User, a: AssetId, k: Kind, events: seq<Event>,
                                                seen: set<Event>, dedup: bool, v: User, b: AssetId)
    requires Consistent(s.db) && a in s.db.assets && HasRow(s.db, u, a)
    ensures
      var r := ApplyEvents(s, u, a, k, events, seen, dedup);
      && Consistent(r.db)
      && (b in s.db.assets ==> r.db.assets[b].agent == s.db.assets[b].agent)
      && (HasRow(r.db, v, b) <==> HasRow(s.db, v, b))
      && (v != u ==> StatsOf(r.db, v, b) == StatsOf(s.db, v, b))
    decreases |events|
  {
    if events != [] {
      hide ApplyEvents, ApplyEvent, HasRow, Consistent, StatsOf;
      ApplyEventsStep(s, u, a, k, events, seen, dedup);
      if dedup && events[0] in seen {
        EventsKeepConsistent(s, u, a, k, events[1..], seen, dedup, v, b);
      } else {
        EventKeepsConsistent(s.db, u, a, k, events[0]);
        if v != u { EventAtOther(s.db, u, a, k, events[0], v, b); }
        if b in s.db.assets { AgentStays(s.db, u, a, k, events[0], b); }
        EventsKeepConsistent(Session(ApplyEvent(s.db, u, a, k, events[0]), s.count + 1),
                             u, a, k, events[1..], seen + {events[0]}, dedup, v, b);
      }
    }
  }

  function NetEvents(events: seq<Event>, seen: set<Event>, dedup: bool, here: bool): Move {
    if here then Move(LastOf(events), Applied(events, seen, dedup)) else STAY
  }

  lemma NetEventsNil(seen: set<Event>, dedup: bool, here: bool)
    ensures NetEvents([], seen, dedup, here) == STAY
  {
    assert Elements<Event>([]) - seen == {};
  }

  /** The net effect of a list, from its first event. */
  lemma NetEventsStep(events: seq<Event>, seen: set<Event>, dedup: bool, here: bool, k: Kind, o: Obs)
    requires events != []
    requires dedup && events[0] in seen && here ==> !k.Singleton()
    ensures
      var net := NetEvents(events, seen, dedup, here);
      if dedup && events[0] in seen then
        Moved(o, k, NetEvents(events[1..], seen, dedup, here)) == Moved(o, k, net)
      else
        (if here then Move(Some(events[0].action), 1) else STAY)
        .Then(NetEvents(events[1..], seen + {events[0]}, dedup, here)) == net
  {
    if dedup { AppliedStep(events, seen); }
    if here && dedup && events[0] in seen {
      TallyIgnoresLast(o, k, NetEvents(events[1..], seen, dedup, here), NetEvents(events, seen, dedup, here));
    }
  }

  lemma {:induction false} EventsAt(s: Session, u: User, a: AssetId, k: Kind, events: seq<Event>,
                                    seen: set<Event>, dedup: bool, b: AssetId, l: Kind)
    requires Consistent(s.db) && a in s.db.assets && HasRow(s.db, u, a)
    requires dedup && k.Singleton() ==> |events| <= 1 && (events == [] || events[0] !in seen)
    ensures Observe(ApplyEvents(s, u, a, k, events, seen, dedup).db, u, b, l)
         == Moved(Observe(s.db, u, b, l), l, NetEvents(events, seen, dedup, b == a && l == k))
    decreases |events|
  {
    hide Observe, Moved, Applied, NetEvents;
    var o, here := Observe(s.db, u, b, l), b == a && l == k;
    if events == [] {
      NetEventsNil(seen, dedup, here);
      MovedThen(o, l, STAY, STAY);
    } else {
      NetEventsStep(events, seen, dedup, here, l, o);
      if dedup && events[0] in seen {
        EventsAt(s, u, a, k, events[1..], seen, dedup, b, l);
      } else {
        var next := ApplyEvent(s.db, u, a, k, events[0]);
        EventAt(s.db, u, a, k, events[0], b, l);
        assert Consistent(next) by { EventKeepsConsistent(s.db, u, a, k, events[0]); }
        EventsAt(Session(next, s.count + 1), u, a, k, events[1..], seen + {events[0]}, dedup, b, l);
        MovedThen(o, l, if here then Move(Some(events[0].action), 1) else STAY,
                  NetEvents(events[1..], seen + {events[0]}, dedup, here));
      }
    }
  }

  // --------------------------------------------------------------------
  // Batches
  // --------------------------------------------------------------------

  /** Like/save/cart lists are applied whole in a replay. */
  predicate Dedups(g: Group, replay: bool) {
    !(replay && g.kind.Singleton())
  }

  function NetGroup(g: Group, replay: bool, b: AssetId, l: Kind): Move {
    NetEvents(g.events, {}, Dedups(g, replay), b == g.asset && l == g.kind)
  }

  /** The net effect of the batch at (b, l). */
  function Net(groups: seq<Group>, replay: bool, b: AssetId, l: Kind): Move {
    if groups == [] then STAY
    else NetGroup(groups[0], replay, b, l).Then(Net(groups[1..], replay, b, l))
  }

  function GroupApplied(g: Group, replay: bool): nat {
    Applied(g.events, {}, Dedups(g, replay))
  }

  function Total(groups: seq<Group>, replay: bool): nat {
    if groups == [] then 0 else GroupApplied(groups[0], replay) + Total(groups[1..], replay)
  }

  predicate Mentions(groups: seq<Group>, b: AssetId) {
    exists g :: g in groups && g.asset == b
  }

  lemma GroupKeepsConsistent(s: Session, u: User, g: Group, dedup: bool, v: User, b: AssetId)
    requires Consistent(s.db) && !Fails(s.db, g)
    ensures
      var r := ApplyGroup(s, u, g, dedup);
      && Consistent(r.db)
      && r.count == s.count + Applied(g.events, {}, dedup)
      && |r.db.events| == |s.db.events| + Applied(g.events, {}, dedup)
      && s.db.events <= r.db.events
      && (b in s.db.assets ==> r.db.assets[b].agent == s.db.assets[b].agent)
      && (HasRow(r.db, u, b) <==> HasRow(s.db, u, b) || g.asset == b)
      && (v != u ==> StatsOf(r.db, v, b) == StatsOf(s.db, v, b))
  {
    EnsureRowKeepsConsistent(s.db, u, g.asset);
    EnsureRowAt(s.db, u, g.asset, v, b, g.kind);
    EventsKeepConsistent(Session(EnsureRow(s.db, u, g.asset), s.count), u, g.asset, g.kind, g.events, {}, dedup, v, b);
    EventsKeepConsistent(Session(EnsureRow(s.db, u, g.asset), s.count), u, g.asset, g.kind, g.events, {}, dedup, u, b);
    EventsCounted(Session(EnsureRow(s.db, u, g.asset), s.count), u, g.asset, g.kind, g.events, {}, dedup);
  }

  lemma GroupAt(s: Session, u: User, g: Group, replay: bool, b: AssetId, l: Kind)
    requires Consistent(s.db) && !Fails(s.db, g)
    requires Dedups(g, replay) && g.kind.Singleton() ==> |g.events| <= 1
    ensures Observe(ApplyGroup(s, u, g, Dedups(g, replay)).db, u, b, l)
         == Moved(Observe(s.db, u, b, l), l, NetGroup(g, replay, b, l))
  {
    EnsureRowKeepsConsistent(s.db, u, g.asset);
    EnsureRowAt(s.db, u, g.asset, u, b, l);
    EventsAt(Session(EnsureRow(s.db, u, g.asset), s.count), u, g.asset, g.kind, g.events, {}, Dedups(g, replay), b, l);
  }

  /** A batch goes through exactly when none of its groups fails; it keeps the
      invariant, counts and logs exactly the applied events, and touches nobody
      else's statistics. */
  lemma {:induction false} GroupsKeepConsistent(s: Session, u: User, groups: seq<Group>, replay: bool,
                                                v: User, b: AssetId)
    requires Consistent(s.db)
    ensures
      var r := ApplyGroups(s, u, groups, replay);
      && (r.Some? <==> forall g :: g in groups ==> !Fails(s.db, g))
      && (r.Some? ==>
            && Consistent(r.value.db)
            && r.value.db.assets.Keys == s.db.assets.Keys
            && r.value.count == s.count + Total(groups, replay)
            && |r.value.db.events| == |s.db.events| + Total(groups, replay)
            && s.db.events <= r.value.db.events
            && (b in s.db.assets ==> r.value.db.assets[b].agent == s.db.assets[b].agent)
            && (HasRow(r.value.db, u, b) <==> HasRow(s.db, u, b) || Mentions(groups, b))
            && (v != u ==> StatsOf(r.value.db, v, b) == StatsOf(s.db, v, b)))
    decreases |groups|
  {
    if groups != [] && !Fails(s.db, groups[0]) {
      var dedup := Dedups(groups[0], replay);
      var mid := ApplyGroup(s, u, groups[0], dedup);
      GroupKeepsConsistent(s, u, groups[0], dedup, v, b);
      GroupsKeepConsistent(mid, u, groups[1..], replay, v, b);
      assert forall g :: g in groups ==> g == groups[0] || g in groups[1..];
      assert forall g :: Fails(mid.db, g) == Fails(s.db, g);
    }
  }

  lemma {:induction false} GroupsAt(s: Session, u: User, groups: seq<Group>, replay: bool, b: AssetId, l: Kind)
    requires Consistent(s.db) && ApplyGroups(s, u, groups, replay).Some?
    requires !replay ==> forall g :: g in groups && g.kind.Singleton() ==> |g.events| <= 1
    ensures Observe(ApplyGroups(s, u, groups, replay).value.db, u, b, l)
         == Moved(Observe(s.db, u, b, l), l, Net(groups, replay, b, l))
    decreases |groups|
  {
    hide Observe, Moved;
    var o := Observe(s.db, u, b, l);
    if groups == [] {
      MovedThen(o, l, STAY, STAY);
    } else {
      var g, rest := groups[0], groups[1..];
      var mid := ApplyGroup(s, u, g, Dedups(g, replay));
      GroupAt(s, u, g, replay, b, l);
      assert Consistent(mid.db) by { GroupKeepsConsistent(s, u, g, Dedups(g, replay), u, b); }
      GroupsAt(mid, u, rest, replay, b, l);
      MovedThen(o, l, NetGroup(g, replay, b, l), Net(rest, replay, b, l));
    }
  }

  // --------------------------------------------------------------------
  // From any database at all
  // --------------------------------------------------------------------

  ghost predicate NoNegativeCounter(db: Db) {
    forall a, l: Kind :: a in db.assets ==> db.assets[a].Counter(l) >= 0
  }

  lemma EventKeepsNonNegative(db: Db, u: User, a: AssetId, k: Kind, e: Event)
    requires NoNegativeCounter(db) && a in db.assets && HasRow(db, u, a)
    ensures NoNegativeCounter(ApplyEvent(db, u, a, k, e))
  {
    var t := ApplyEvent(db, u, a, k, e);
    forall b, l: Kind | b in t.assets ensures t.assets[b].Counter(l) >= 0 {
      assert db.assets[b].Counter(l) >= 0;
      if l != k {
        OtherKindsStay(db.rows[FindRow(db.rows, u, a).value].stats, db.assets[a], k, e.action,
                       db.assets[a].agent == u, l);
      }
    }
  }

  lemma {:induction false} EventsKeepNonNegative(s: Session, u: User, a: AssetId, k: Kind, events: seq<Event>,
                                                 seen: set<Event>, dedup: bool)
    requires NoNegativeCounter(s.db) && a in s.db.assets && HasRow(s.db, u, a)
    ensures NoNegativeCounter(ApplyEvents(s, u, a, k, events, seen, dedup).db)
    decreases |events|
  {
    hide NoNegativeCounter, ApplyEvent, HasRow, Asset.Counter;
    if events != [] {
      if dedup && events[0] in seen {
        EventsKeepNonNegative(s, u, a, k, events[1..], seen, dedup);
      } else {
        EventKeepsNonNegative(s.db, u, a, k, events[0]);
        EventsKeepNonNegative(Session(ApplyEvent(s.db, u, a, k, events[0]), s.count + 1),
                              u, a, k, events[1..], seen + {events[0]}, dedup);
      }
    }
  }

  /** No counter ever becomes negative, also where statistics and counters disagree. */
  lemma {:induction false} GroupsKeepNonNegative(s: Session, u: User, groups: seq<Group>, replay: bool)
    requires NoNegativeCounter(s.db) && ApplyGroups(s, u, groups, replay).Some?
    ensures NoNegativeCounter(ApplyGroups(s, u, groups, replay).value.db)
    decreases |groups|
  {
    hide ApplyEvents, Asset.Counter;
    if groups != [] {
      var g := groups[0];
      var dedup := !(replay && g.kind.Singleton());
      var start := Session(EnsureRow(s.db, u, g.asset), s.count);
      assert NoNegativeCounter(start.db);
      EventsKeepNonNegative(start, u, g.asset, g.kind, g.events, {}, dedup);
      GroupsKeepNonNegative(ApplyGroup(s, u, g, dedup), u, groups[1..], replay);
    }
  }
}
