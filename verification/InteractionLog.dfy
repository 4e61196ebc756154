/**
 The event rows a batch leaves behind, row by row.
 */
module InteractionLog {
  import opened Prelude
  import opened Interactions
  import opened InteractionProofs
  import opened InteractionTheorems

  /** The events of a list that are applied: first appearances, in list order. */
  function Distinct(events: seq<Event>, seen: set<Event>): seq<Event> {
    if events == [] then []
    else if events[0] in seen then Distinct(events[1..], seen)
    else [events[0]] + Distinct(events[1..], seen + {events[0]})
  }

  lemma {:induction false} DistinctMeaning(events: seq<Event>, seen: set<Event>)
    ensures NoDuplicates(Distinct(events, seen))
    ensures Elements(Distinct(events, seen)) == Elements(events) - seen
  {
    if events != [] {
      var e, rest := events[0], events[1..];
      assert Elements(events) == {e} + Elements(rest);
      if e in seen {
        DistinctMeaning(rest, seen);
      } else {
        var tail := Distinct(rest, seen + {e});
        DistinctMeaning(rest, seen + {e});
        assert e !in tail by { assert e !in Elements(tail); }
        assert Elements([e] + tail) == {e} + Elements(tail);
      }
    }
  }

  function Records(u: User, a: AssetId, k: Kind, events: seq<Event>): seq<EventRow> {
    if events == [] then [] else [EventRow(a, events[0].ts, k, u)] + Records(u, a, k, events[1..])
  }

  lemma {:induction false} RecordsMembers(u: User, a: AssetId, k: Kind, events: seq<Event>, r: EventRow)
    ensures r in Records(u, a, k, events) <==> exists e :: e in events && r == EventRow(a, e.ts, k, u)
  {
    if events != [] {
      RecordsMembers(u, a, k, events[1..], r);
      assert forall e :: e in events <==> e == events[0] || e in events[1..];
    }
  }

  /** A de-duplicated list logs one row per distinct event, in order. */
  lemma {:induction false} EventsLogged(s: Session, u: User, a: AssetId, k: Kind, events: seq<Event>, seen: set<Event>)
    requires a in s.db.assets && HasRow(s.db, u, a)
    ensures ApplyEvents(s, u, a, k, events, seen, true).db.events
         == s.db.events + Records(u, a, k, Distinct(events, seen))
    decreases |events|
  {
    if events != [] {
      var e, rest := events[0], events[1..];
      ApplyEventsStep(s, u, a, k, events, seen, true);
      hide ApplyEvents, ApplyEvent, HasRow;
      if e in seen {
        EventsLogged(s, u, a, k, rest, seen);
      } else {
        var tail := Distinct(rest, seen + {e});
        EventAppends(s.db, u, a, k, e);
        EventsLogged(Session(ApplyEvent(s.db, u, a, k, e), s.count + 1), u, a, k, rest, seen + {e});
        RecordsCons(u, a, k, e, tail);
        Regroup(s.db.events, [EventRow(a, e.ts, k, u)], Records(u, a, k, tail));
      }
    }
  }

  lemma RecordsCons(u: User, a: AssetId, k: Kind, e: Event, events: seq<Event>)
    ensures Records(u, a, k, [e] + events) == [EventRow(a, e.ts, k, u)] + Records(u, a, k, events)
  {
    assert ([e] + events)[1..] == events;
  }

  /** What a list of groups logs. */
  function LogOf(u: User, groups: seq<Group>): seq<EventRow> {
    if groups == [] then []
    else Records(u, groups[0].asset, groups[0].kind, Distinct(groups[0].events, {})) + LogOf(u, groups[1..])
  }

  /** A row is logged exactly when some list of the groups has its event. */
  lemma {:induction false} LogMembers(u: User, groups: seq<Group>, r: EventRow)
    ensures r in LogOf(u, groups) <==>
            exists g, e :: g in groups && e in g.events && r == EventRow(g.asset, e.ts, g.kind, u)
  {
    if groups != [] {
      var h, rest := groups[0], groups[1..];
      LogMembers(u, rest, r);
      RecordsMembers(u, h.asset, h.kind, Distinct(h.events, {}), r);
      DistinctMeaning(h.events, {});
      assert forall e :: e in Distinct(h.events, {}) <==> e in h.events by {
        assert forall e :: e in Distinct(h.events, {}) <==> e in Elements(Distinct(h.events, {}));
        assert forall e :: e in h.events <==> e in Elements(h.events);
      }
      assert forall g :: g in groups <==> g == h || g in rest;
    }
  }

  lemma {:induction false} GroupsLogged(s: Session, u: User, groups: seq<Group>)
    requires ApplyGroups(s, u, groups, false).Some?
    ensures ApplyGroups(s, u, groups, false).value.db.events == s.db.events + LogOf(u, groups)
    decreases |groups|
  {
    if groups != [] {
      hide ApplyEvents, FindRow, Records, Distinct;
      var g, rest := groups[0], groups[1..];
      var mid := ApplyGroup(s, u, g, true);
      var added := Records(u, g.asset, g.kind, Distinct(g.events, {}));
      EventsLogged(Session(EnsureRow(s.db, u, g.asset), s.count), u, g.asset, g.kind, g.events, {});
      assert mid.db.events == s.db.events + added;
      GroupsLogged(mid, u, rest);
      Regroup(s.db.events, added, LogOf(u, rest));
    }
  }

  lemma {:induction false} LogOfAppend(u: User, x: seq<Group>, y: seq<Group>)
    ensures LogOf(u, x + y) == LogOf(u, x) + LogOf(u, y)
  {
    hide Records, Distinct;
    if x == [] {
      assert x + y == y;
    } else {
      assert (x + y)[1..] == x[1..] + y;
      LogOfAppend(u, x[1..], y);
    }
  }

  /** The rows of the tallied lists: one per distinct event, in list order. */
  function TallyLog(u: User, gs: seq<Group>): seq<EventRow> {
    if gs == [] then []
    else (if IsFlag(gs[0].kind) then [] else Records(u, gs[0].asset, gs[0].kind, Distinct(gs[0].events, {})))
         + TallyLog(u, gs[1..])
  }

  /** The rows of the like/save/cart lists: the last event of each. */
  function FlagLog(u: User, gs: seq<Group>): seq<EventRow> {
    if gs == [] then []
    else (if IsFlag(gs[0].kind) && gs[0].events != []
          then [EventRow(gs[0].asset, gs[0].events[|gs[0].events| - 1].ts, gs[0].kind, u)] else [])
         + FlagLog(u, gs[1..])
  }

  lemma {:induction false} TalliedLog(u: User, gs: seq<Group>)
    ensures LogOf(u, Tallied(gs)) == TallyLog(u, gs)
  {
    hide Records, Distinct;
    if gs != [] {
      TalliedLog(u, gs[1..]);
      LogOfCons(u, gs[0], Tallied(gs[1..]));
    }
  }

  lemma LogOfCons(u: User, g: Group, rest: seq<Group>)
    ensures LogOf(u, [g] + rest) == Records(u, g.asset, g.kind, Distinct(g.events, {})) + LogOf(u, rest)
  {
    assert ([g] + rest)[1..] == rest;
  }

  lemma {:induction false} FlaggedLog(u: User, gs: seq<Group>)
    ensures LogOf(u, Flagged(gs)) == FlagLog(u, gs)
  {
    if gs != [] {
      hide LogOf, Records, Distinct;
      FlaggedLog(u, gs[1..]);
      if IsFlag(gs[0].kind) && gs[0].events != [] {
        LastLogged(u, gs[0], Flagged(gs[1..]));
      }
    } else {
      NothingLogged(u);
    }
  }

  lemma NothingLogged(u: User)
    ensures LogOf(u, []) == []
  {
  }

  lemma LastLogged(u: User, g: Group, rest: seq<Group>)
    requires g.events != []
    ensures
      var last := g.events[|g.events| - 1];
      LogOf(u, [g.(events := LastOnly(g.events))] + rest) == [EventRow(g.asset, last.ts, g.kind, u)] + LogOf(u, rest)
  {
    var last := g.events[|g.events| - 1];
    LogOfCons(u, g.(events := [last]), rest);
    hide LogOf;
    assert [last][1..] == [];
    assert Distinct([last], {}) == [last] + Distinct([], {last});
    assert Records(u, g.asset, g.kind, [last]) ==
           [EventRow(g.asset, last.ts, g.kind, u)] + Records(u, g.asset, g.kind, []);
  }

  lemma {:induction false} TallyLogMembers(u: User, gs: seq<Group>, r: EventRow)
    ensures r in TallyLog(u, gs) <==>
            exists g, e :: g in gs && !IsFlag(g.kind) && e in g.events && r == EventRow(g.asset, e.ts, g.kind, u)
  {
    TalliedLog(u, gs);
    LogMembers(u, Tallied(gs), r);
    forall g ensures g in Tallied(gs) <==> g in gs && !IsFlag(g.kind) { TalliedIff(gs, g); }
  }

  lemma {:induction false} FlagLogMembers(u: User, gs: seq<Group>, r: EventRow)
    ensures r in FlagLog(u, gs) <==>
            exists g :: g in gs && IsFlag(g.kind) && g.events != []
                        && r == EventRow(g.asset, g.events[|g.events| - 1].ts, g.kind, u)
  {
    if gs != [] {
      FlagLogMembers(u, gs[1..], r);
      assert forall g :: g in gs <==> g == gs[0] || g in gs[1..];
    }
  }

  /** A committed batch appends first, list by list, one row per distinct event of the
      tallied lists, and then one for the last event of each like/save/cart list, with
      the event's own timestamp and the user's id. */
  lemma BatchLog(db: Db, u: User, gs: seq<Group>)
    requires PersistBatch(db, u, gs).Some?
    ensures PersistBatch(db, u, gs).value.db.events == db.events + TallyLog(u, gs) + FlagLog(u, gs)
  {
    hide ApplyGroups, LogOf;
    GroupsLogged(Session(db, 0), u, Collapse(gs));
    LogOfAppend(u, Tallied(gs), Flagged(gs));
    TalliedLog(u, gs);
    FlaggedLog(u, gs);
    Regroup(db.events, TallyLog(u, gs), FlagLog(u, gs));
  }

  /** A row is new exactly when it is that of the last event of a like/save/cart list,
      or of some event of another list. */
  lemma BatchLogMembers(db: Db, u: User, gs: seq<Group>, r: EventRow)
    requires PersistBatch(db, u, gs).Some?
    ensures
      var log := PersistBatch(db, u, gs).value.db.events;
      && db.events <= log
      && (r in log[|db.events|..] <==>
            || (exists g :: g in gs && IsFlag(g.kind) && g.events != []
                            && r == EventRow(g.asset, g.events[|g.events| - 1].ts, g.kind, u))
            || (exists g, e :: g in gs && !IsFlag(g.kind) && e in g.events
                               && r == EventRow(g.asset, e.ts, g.kind, u)))
  {
    hide PersistBatch, TallyLog, FlagLog;
    BatchLog(db, u, gs);
    TallyLogMembers(u, gs, r);
    FlagLogMembers(u, gs, r);
    var log := PersistBatch(db, u, gs).value.db.events;
    assert log[|db.events|..] == TallyLog(u, gs) + FlagLog(u, gs);
  }
}
