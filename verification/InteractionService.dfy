/**
 The handler itself, working step by step on a session and committing at the end.
 */
module InteractionService {
  import opened Prelude
  import opened Interactions

  datatype Response = Success(count: nat) | ServerError

  /** Every like/save/cart list cut down to its last event, empty ones included. */
  function Latest(groups: seq<Group>): seq<Group> {
    if groups == [] then []
    else if groups[0].kind.Singleton() then
      [groups[0].(events := LastOnly(groups[0].events))] + Latest(groups[1..])
    else Latest(groups[1..])
  }

  function NonEmpty(groups: seq<Group>): seq<Group> {
    if groups == [] then []
    else if groups[0].events == [] then NonEmpty(groups[1..])
    else [groups[0]] + NonEmpty(groups[1..])
  }

  lemma {:induction false} FlaggedIsNonEmptyLatest(groups: seq<Group>)
    ensures Flagged(groups) == NonEmpty(Latest(groups))
  {
    if groups != [] {
      FlaggedIsNonEmptyLatest(groups[1..]);
      var g := groups[0].(events := LastOnly(groups[0].events));
      assert ([g] + Latest(groups[1..]))[1..] == Latest(groups[1..]);
    }
  }

  /** Assignment into an insertion-ordered dictionary keyed by (property, type). */
  function Upsert(latest: seq<Group>, g: Group): seq<Group> {
    if latest == [] then [g]
    else if latest[0].asset == g.asset && latest[0].kind == g.kind then [g] + latest[1..]
    else [latest[0]] + Upsert(latest[1..], g)
  }

  lemma {:induction false} UpsertFresh(latest: seq<Group>, g: Group)
    requires forall h :: h in latest ==> h.asset != g.asset || h.kind != g.kind
    ensures Upsert(latest, g) == latest + [g]
  {
    if latest != [] {
      assert latest[0] in latest;
      UpsertFresh(latest[1..], g);
    }
  }

  /** The last loop of the collapse: append the flag lists that have an event. */
  method AppendNonEmpty(tallied: seq<Group>, latest: seq<Group>) returns (normalized: seq<Group>)
    ensures normalized == tallied + NonEmpty(latest)
  {
    normalized := tallied;
    assert latest[0..] == latest;
    for i := 0 to |latest|
      invariant normalized + NonEmpty(latest[i..]) == tallied + NonEmpty(latest)
    {
      assert latest[i..][1..] == latest[i + 1..];
      if latest[i].events != [] {
        normalized := normalized + [latest[i]];
      }
    }
  }

  /** The first loops: separate flags from tallies and keep the last flag event. */
  method CollapseInteractions(interactions: seq<Group>) returns (normalized: seq<Group>)
    requires DistinctKeys(interactions)
    ensures normalized == Collapse(interactions)
  {
    hide Flagged, NonEmpty;
    var singletonLatest: seq<Group> := [];
    normalized := [];
    for i := 0 to |interactions|
      invariant normalized + Tallied(interactions[i..]) == Tallied(interactions)
      invariant singletonLatest + Latest(interactions[i..]) == Latest(interactions)
      invariant forall h :: h in singletonLatest ==>
                  exists j :: 0 <= j < i && interactions[j].asset == h.asset && interactions[j].kind == h.kind
    {
      var g := interactions[i];
      assert interactions[i..][1..] == interactions[i + 1..];
      if g.kind.Singleton() {
        var last := g.(events := if g.events != [] then [g.events[|g.events| - 1]] else []);
        UpsertFresh(singletonLatest, last);
        singletonLatest := Upsert(singletonLatest, last);
      } else {
        normalized := normalized + [g];
      }
    }
    assert interactions[|interactions|..] == [];
    assert normalized == Tallied(interactions) && singletonLatest == Latest(interactions);
    FlaggedIsNonEmptyLatest(interactions);
    normalized := AppendNonEmpty(normalized, singletonLatest);
  }

  /** The case analysis on the event type. */
  method RecordEvent(work: Db, user: User, asset: AssetId, kind: Kind, e: Event, i: nat) returns (after: Db)
    requires asset in work.assets && FindRow(work.rows, user, asset) == Some(i) && kind.Supported()
    ensures after == ApplyEvent(work, user, asset, kind, e)
  {
    hide FindRow;
    var stats, x := work.rows[i].stats, work.assets[asset];
    match kind {
      case Like =>
        if stats.liked != e.action {
          x := x.(likes := Max(0, x.likes + if e.action then 1 else -1));
        }
        stats := stats.(liked := e.action);
      case Save =>
        if stats.saved != e.action {
          x := x.(saves := Max(0, x.saves + if e.action then 1 else -1));
        }
        stats := stats.(saved := e.action);
      case Cart =>
        if stats.cart != e.action {
          x := x.(carts := Max(0, x.carts + if e.action then 1 else -1));
        }
        stats := stats.(cart := e.action);
      case Share =>
        stats, x := stats.(shares := stats.shares + 1), x.(shares := x.shares + 1);
      case View =>
        if user != x.agent {
          stats, x := stats.(views := stats.views + 1), x.(views := x.views + 1);
        }
      case Click =>
        stats, x := stats.(clicks := stats.clicks + 1), x.(clicks := x.clicks + 1);
      case Contact =>
        stats, x := stats.(contacts := stats.contacts + 1), x.(contacts := x.contacts + 1);
    }
    after := Db(work.assets[asset := x], work.rows[i := work.rows[i].(stats := stats)],
                work.events + [EventRow(asset, e.ts, kind, user)]);
  }

  lemma EventKeepsIndex(work: Db, user: User, asset: AssetId, kind: Kind, e: Event, b: AssetId)
    requires asset in work.assets && HasRow(work, user, asset)
    ensures FindRow(ApplyEvent(work, user, asset, kind, e).rows, user, b) == FindRow(work.rows, user, b)
  {
    var i := FindRow(work.rows, user, asset).value;
    FindRowUpdate(work.rows, i, ApplyEvent(work, user, asset, kind, e).rows[i], user, b);
  }

  class InteractionStore {
    var db: Db

    constructor (assets: map<AssetId, Asset>)
      ensures db == Db(assets, [], [])
    {
      db := Db(assets, [], []);
    }

    /** All or nothing: a committed batch is exactly `PersistBatch`, an aborted
        one leaves every table as it was. */
    method PersistInteractions(interactions: seq<Group>, user: User) returns (r: Response)
      requires DistinctKeys(interactions)
      modifies this
      ensures match PersistBatch(old(db), user, interactions)
              case None => r == ServerError && db == old(db)
              case Some(s) => r == Success(s.count) && db == s.db
    {
      hide FindRow, ApplyEvents, Collapse;
      var normalized := CollapseInteractions(interactions);
      var work, interactionCount := db, 0;
      var statsIndex: map<AssetId, nat> := map[];
      for i := 0 to |normalized|
        invariant db == old(db)
        invariant ApplyGroups(Session(work, interactionCount), user, normalized[i..], false)
               == ApplyGroups(Session(db, 0), user, normalized, false)
        invariant forall a :: a in statsIndex ==> FindRow(work.rows, user, a) == Some(statsIndex[a])
      {
        var g := normalized[i];
        assert normalized[i..][0] == g && normalized[i..][1..] == normalized[i + 1..];
        if g.asset !in work.assets {
          return ServerError;
        }
        ghost var entry := Session(work, interactionCount);
        if g.asset !in statsIndex {
          work, statsIndex := StatsRow(work, user, g.asset, statsIndex);
        }
        var row := statsIndex[g.asset];
        var failed;
        work, interactionCount, failed := RecordGroup(work, interactionCount, user, g, row, statsIndex);
        if failed {
          return ServerError;
        }
        assert Session(work, interactionCount) == ApplyGroup(entry, user, g, true);
      }
      db := work;
      r := Success(interactionCount);
    }

    /** Query the user's row, creating it when the query returns nothing, and
        remember where it is. */
    static method StatsRow(work: Db, user: User, asset: AssetId, known: map<AssetId, nat>)
      returns (after: Db, index: map<AssetId, nat>)
      requires forall a :: a in known ==> FindRow(work.rows, user, a) == Some(known[a])
      ensures after == EnsureRow(work, user, asset)
      ensures index.Keys == known.Keys + {asset}
      ensures forall a :: a in index ==> FindRow(after.rows, user, a) == Some(index[a])
    {
      after := work;
      var found := FindRow(work.rows, user, asset);
      if found.None? {
        after := work.(rows := work.rows + [Row(user, asset, FRESH_STATS)]);
        forall a ensures a in known ==> FindRow(after.rows, user, a) == FindRow(work.rows, user, a) {
          FindRowAppend(work.rows, Row(user, asset, FRESH_STATS), user, a);
        }
        FindRowAppend(work.rows, Row(user, asset, FRESH_STATS), user, asset);
        index := known[asset := |work.rows|];
      } else {
        index := known[asset := found.value];
      }
    }

    /** The inner loop over one group's events. */
    static method RecordGroup(work: Db, count: nat, user: User, g: Group, row: nat, ghost known: map<AssetId, nat>)
      returns (after: Db, newCount: nat, failed: bool)
      requires g.asset in work.assets && FindRow(work.rows, user, g.asset) == Some(row)
      requires forall a :: a in known ==> FindRow(work.rows, user, a) == Some(known[a])
      ensures failed == Fails(work, g)
      ensures !failed ==> Session(after, newCount) ==
                          ApplyEvents(Session(work, count), user, g.asset, g.kind, g.events, {}, true)
      ensures forall a :: a in known ==> FindRow(after.rows, user, a) == Some(known[a])
    {
      after, newCount, failed := work, count, false;
      var seenEventKeys: set<Event> := {};
      for i := 0 to |g.events|
        invariant g.asset in after.assets && FindRow(after.rows, user, g.asset) == Some(row)
        invariant i > 0 ==> g.kind.Supported()
        invariant ApplyEvents(Session(after, newCount), user, g.asset, g.kind, g.events[i..], seenEventKeys, true)
               == ApplyEvents(Session(work, count), user, g.asset, g.kind, g.events, {}, true)
        invariant forall a :: a in known ==> FindRow(after.rows, user, a) == Some(known[a])
        invariant i == 0 ==> seenEventKeys == {}
      {
        var e := g.events[i];
        assert g.events[i..][0] == e && g.events[i..][1..] == g.events[i + 1..];
        if e !in seenEventKeys {
          seenEventKeys := seenEventKeys + {e};
          if !g.kind.Supported() {
            failed := true;
            return;
          }
          forall a
            ensures FindRow(ApplyEvent(after, user, g.asset, g.kind, e).rows, user, a) == FindRow(after.rows, user, a)
          {
            EventKeepsIndex(after, user, g.asset, g.kind, e, a);
          }
          after := RecordEvent(after, user, g.asset, g.kind, e, row);
          newCount := newCount + 1;
        }
      }
    }
  }
}
