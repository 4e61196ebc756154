/**
 Interaction persistence: a user's batch of property events is collapsed,
 de-duplicated and folded into the user's stats rows and the assets' counters
 (app/controllers/assets/services.py, `handle_persist_property_interaction`).
 */
module Interactions {
  import opened Prelude

  type User = int
  type AssetId = int

  // --------------------------------------------------------------------
  // Tables
  // --------------------------------------------------------------------

  datatype Kind = Like | Save | Cart | Share | View | Click | Contact | SearchResultAppearance {
    /** The kinds whose user statistic is a flag rather than a tally. */
    predicate Singleton() { Like? || Save? || Cart? }

    /** `SearchResultAppearance` is a legal enum member the handler has no case for. */
    predicate Supported() { !SearchResultAppearance? }
  }

  datatype Event = Event(ts: int, action: bool)

  /** One (property, type) entry of the request with its list of events. */
  datatype Group = Group(asset: AssetId, kind: Kind, events: seq<Event>)

  datatype Stats = Stats(liked: bool, saved: bool, cart: bool,
                         shares: nat, views: nat, clicks: nat, contacts: nat)
  {
    /** What this row contributes to the asset's counter of kind `k`. */
    function Value(k: Kind): nat {
      match k
      case Like => if liked then 1 else 0
      case Save => if saved then 1 else 0
      case Cart => if cart then 1 else 0
      case Share => shares
      case View => views
      case Click => clicks
      case Contact => contacts
      case SearchResultAppearance => 0
    }
  }

  const FRESH_STATS := Stats(false, false, false, 0, 0, 0, 0)

  datatype Row = Row(user: User, asset: AssetId, stats: Stats)

  datatype Asset = Asset(agent: User, likes: int, saves: int, carts: int,
                         shares: int, views: int, clicks: int, contacts: int)
  {
    function Counter(k: Kind): int {
      match k
      case Like => likes
      case Save => saves
      case Cart => carts
      case Share => shares
      case View => views
      case Click => clicks
      case Contact => contacts
      case SearchResultAppearance => 0
    }
  }

  datatype EventRow = EventRow(asset: AssetId, ts: int, kind: Kind, user: User)

  /** The three tables the handler writes. The stats table is a plain list of
      rows: nothing in the schema forbids two rows for one (user, asset). */
  datatype Db = Db(assets: map<AssetId, Asset>, rows: seq<Row>, events: seq<EventRow>)

  /** A unit of work: the pending tables and the running `interaction_count`. */
  datatype Session = Session(db: Db, count: nat)

  /** Index of the row the handler's query returns: the first match. */
  function FindRow(rows: seq<Row>, u: User, a: AssetId): (r: Option<nat>)
    ensures r.Some? ==> r.value < |rows| && rows[r.value].user == u && rows[r.value].asset == a
  {
    if rows == [] then None
    else if rows[0].user == u && rows[0].asset == a then Some(0)
    else match FindRow(rows[1..], u, a)
      case None => None
      case Some(i) => Some(i + 1)
  }

  /** It is the first match, and it misses only when no row matches. */
  lemma {:induction false} FindRowFirst(rows: seq<Row>, u: User, a: AssetId)
    ensures
      var r := FindRow(rows, u, a);
      var stop := if r.Some? then r.value else |rows|;
      forall j :: 0 <= j < stop ==> rows[j].user != u || rows[j].asset != a
  {
    if rows != [] && !(rows[0].user == u && rows[0].asset == a) {
      FindRowFirst(rows[1..], u, a);
      forall j | 0 < j < (if FindRow(rows, u, a).Some? then FindRow(rows, u, a).value else |rows|)
        ensures rows[j].user != u || rows[j].asset != a
      {
        assert rows[j] == rows[1..][j - 1];
      }
    }
  }

  /** Appending at the end finds the appended row only when nothing matched. */
  lemma {:induction false} FindRowAppend(rows: seq<Row>, r: Row, v: User, b: AssetId)
    ensures FindRow(rows + [r], v, b) ==
            if FindRow(rows, v, b).Some? then FindRow(rows, v, b)
            else if r.user == v && r.asset == b then Some(|rows|) else None
  {
    if rows == [] {
      assert rows + [r] == [r];
    } else {
      assert (rows + [r])[1..] == rows[1..] + [r];
      FindRowAppend(rows[1..], r, v, b);
    }
  }

  /** Lookups do not see an update that keeps the keys of row `i`. */
  lemma {:induction false} FindRowUpdate(rows: seq<Row>, i: nat, r: Row, v: User, b: AssetId)
    requires i < |rows| && r.user == rows[i].user && r.asset == rows[i].asset
    ensures FindRow(rows[i := r], v, b) == FindRow(rows, v, b)
  {
    if i == 0 {
      assert rows[0 := r][1..] == rows[1..];
    } else {
      assert rows[i := r][1..] == rows[1..][i - 1 := r];
      FindRowUpdate(rows[1..], i - 1, r, v, b);
    }
  }

  // --------------------------------------------------------------------
  // The effect of one event, one group, one batch
  // --------------------------------------------------------------------

  function StatsAfter(s: Stats, k: Kind, action: bool, own: bool): Stats {
    match k
    case Like => s.(liked := action)
    case Save => s.(saved := action)
    case Cart => s.(cart := action)
    case Share => s.(shares := s.shares + 1)
    case View => if own then s else s.(views := s.views + 1)
    case Click => s.(clicks := s.clicks + 1)
    case Contact => s.(contacts := s.contacts + 1)
    case SearchResultAppearance => s
  }

  /** A flag counter moves only when the flag flips, and is clamped at zero. */
  function Bumped(counter: int, before: bool, after: bool): int {
    if before == after then counter
    else Max(0, counter + (if after then 1 else -1))
  }

  function AssetAfter(x: Asset, s: Stats, k: Kind, action: bool, own: bool): (r: Asset)
    ensures r.agent == x.agent
  {
    match k
    case Like => x.(likes := Bumped(x.likes, s.liked, action))
    case Save => x.(saves := Bumped(x.saves, s.saved, action))
    case Cart => x.(carts := Bumped(x.carts, s.cart, action))
    case Share => x.(shares := x.shares + 1)
    case View => if own then x else x.(views := x.views + 1)
    case Click => x.(clicks := x.clicks + 1)
    case Contact => x.(contacts := x.contacts + 1)
    case SearchResultAppearance => x
  }

  predicate HasRow(db: Db, u: User, a: AssetId) {
    FindRow(db.rows, u, a).Some?
  }

  function EnsureRow(db: Db, u: User, a: AssetId): (r: Db)
    ensures HasRow(r, u, a) && r.assets == db.assets
  {
    if HasRow(db, u, a) then db
    else
      FindRowAppend(db.rows, Row(u, a, FRESH_STATS), u, a);
      db.(rows := db.rows + [Row(u, a, FRESH_STATS)])
  }

  /** Store a new statistics record in row `i`, a new asset record, and log. */
  function WriteBack(db: Db, i: nat, s: Stats, x: Asset, e: EventRow): (r: Db)
    requires i < |db.rows|
    ensures forall v, b :: HasRow(r, v, b) == HasRow(db, v, b)
  {
    var rows := db.rows[i := db.rows[i].(stats := s)];
    assert forall v, b :: FindRow(rows, v, b) == FindRow(db.rows, v, b) by {
      forall v, b ensures FindRow(rows, v, b) == FindRow(db.rows, v, b) {
        FindRowUpdate(db.rows, i, rows[i], v, b);
      }
    }
    Db(db.assets[e.asset := x], rows, db.events + [e])
  }

  function ApplyEvent(db: Db, u: User, a: AssetId, k: Kind, e: Event): (r: Db)
    requires a in db.assets && HasRow(db, u, a)
    ensures r.assets.Keys == db.assets.Keys && HasRow(r, u, a)
  {
    var i := FindRow(db.rows, u, a).value;
    var s := db.rows[i].stats;
    var own := db.assets[a].agent == u;
    WriteBack(db, i, StatsAfter(s, k, e.action, own), AssetAfter(db.assets[a], s, k, e.action, own),
              EventRow(a, e.ts, k, u))
  }

  /** Events already in `seen` are skipped when `dedup` is set. */
  function ApplyEvents(s: Session, u: User, a: AssetId, k: Kind, events: seq<Event>,
                       seen: set<Event>, dedup: bool): (r: Session)
    requires a in s.db.assets && HasRow(s.db, u, a)
    ensures r.db.assets.Keys == s.db.assets.Keys && HasRow(r.db, u, a)
    decreases |events|
  {
    if events == [] then s
    else if dedup && events[0] in seen then ApplyEvents(s, u, a, k, events[1..], seen, dedup)
    else ApplyEvents(Session(ApplyEvent(s.db, u, a, k, events[0]), s.count + 1),
                     u, a, k, events[1..], seen + {events[0]}, dedup)
  }

  /** A group that makes the handler raise: an unknown property (its stats row
      violates a foreign key) or an event of the kind without a case. */
  predicate Fails(db: Db, g: Group) {
    g.asset !in db.assets || (!g.kind.Supported() && g.events != [])
  }

  function ApplyGroup(s: Session, u: User, g: Group, dedup: bool): (r: Session)
    requires !Fails(s.db, g)
    ensures r.db.assets.Keys == s.db.assets.Keys
  {
    ApplyEvents(Session(EnsureRow(s.db, u, g.asset), s.count), u, g.asset, g.kind, g.events, {}, dedup)
  }

  /** Groups folded in order; None is the rolled-back batch. The handler runs
      this with `replay` off: every list is de-duplicated. A replay applies
      every event of a like/save/cart list. */
  function ApplyGroups(s: Session, u: User, groups: seq<Group>, replay: bool): Option<Session>
    decreases |groups|
  {
    if groups == [] then Some(s)
    else if Fails(s.db, groups[0]) then None
    else ApplyGroups(ApplyGroup(s, u, groups[0], !(replay && groups[0].kind.Singleton())), u, groups[1..], replay)
  }

  function LastOnly(events: seq<Event>): seq<Event> {
    if events == [] then [] else [events[|events| - 1]]
  }

  function Tallied(groups: seq<Group>): seq<Group> {
    if groups == [] then []
    else if groups[0].kind.Singleton() then Tallied(groups[1..])
    else [groups[0]] + Tallied(groups[1..])
  }

  function Flagged(groups: seq<Group>): seq<Group> {
    if groups == [] then []
    else if groups[0].kind.Singleton() && groups[0].events != [] then
      [groups[0].(events := LastOnly(groups[0].events))] + Flagged(groups[1..])
    else Flagged(groups[1..])
  }

  /** The collapse: tallied groups first and whole, then the last event of
      every non-empty like/save/cart list. */
  function Collapse(groups: seq<Group>): seq<Group> {
    Tallied(groups) + Flagged(groups)
  }

  function PersistBatch(db: Db, u: User, groups: seq<Group>): Option<Session> {
    ApplyGroups(Session(db, 0), u, Collapse(groups), false)
  }

  /** An empty like/save/cart list is ignored. */
  predicate Idle(g: Group) {
    g.kind.Singleton() && g.events == []
  }

  function DropIdle(groups: seq<Group>): seq<Group> {
    if groups == [] then []
    else if Idle(groups[0]) then DropIdle(groups[1..])
    else [groups[0]] + DropIdle(groups[1..])
  }

  /** The reference: no collapse and no reordering; every like/save/cart event
      is applied in list order, the others once per distinct event. */
  function ReplayBatch(db: Db, u: User, groups: seq<Group>): Option<Session> {
    ApplyGroups(Session(db, 0), u, DropIdle(groups), true)
  }

  /** Distinct (property, type) keys, as the nested dictionaries guarantee. */
  ghost predicate DistinctKeys(groups: seq<Group>) {
    forall i, j :: 0 <= i < j < |groups| ==>
      groups[i].asset != groups[j].asset || groups[i].kind != groups[j].kind
  }

  // --------------------------------------------------------------------
  // Observations
  // --------------------------------------------------------------------

  function StatsOf(db: Db, u: User, a: AssetId): Option<Stats> {
    match FindRow(db.rows, u, a)
    case None => None
    case Some(i) => Some(db.rows[i].stats)
  }

  function UserValue(db: Db, u: User, a: AssetId, k: Kind): nat {
    match StatsOf(db, u, a)
    case None => 0
    case Some(s) => s.Value(k)
  }

  function Counter(db: Db, a: AssetId, k: Kind): int {
    if a in db.assets then db.assets[a].Counter(k) else 0
  }

  /** Event rows of kind `k` that user `u` has on asset `a`. */
  function Logged(events: seq<EventRow>, u: User, a: AssetId, k: Kind): nat {
    if events == [] then 0
    else Logged(events[..|events| - 1], u, a, k)
         + (var e := events[|events| - 1]; if e.user == u && e.asset == a && e.kind == k then 1 else 0)
  }

  function Contribution(r: Row, a: AssetId, k: Kind): nat {
    if r.asset == a then r.stats.Value(k) else 0
  }

  /** Sum over all rows of the asset, i.e. over all users. */
  function Sum(rows: seq<Row>, a: AssetId, k: Kind): nat {
    if rows == [] then 0 else Contribution(rows[0], a, k) + Sum(rows[1..], a, k)
  }

  /** The users whose flag of kind `k` is set on asset `a`. */
  function Flaggers(rows: seq<Row>, a: AssetId, k: Kind): set<User> {
    set r | r in rows && r.asset == a && r.stats.Value(k) == 1 :: r.user
  }

  ghost predicate UniqueRows(rows: seq<Row>) {
    forall i, j :: 0 <= i < j < |rows| ==> rows[i].user != rows[j].user || rows[i].asset != rows[j].asset
  }

  /** The denormalisation invariant. */
  ghost predicate Consistent(db: Db) {
    && UniqueRows(db.rows)
    && (forall r :: r in db.rows ==> r.asset in db.assets)
    && (forall a, k :: a in db.assets ==> db.assets[a].Counter(k) == Sum(db.rows, a, k))
  }

  lemma {:induction false} SumAppend(rows: seq<Row>, r: Row, a: AssetId, k: Kind)
    ensures Sum(rows + [r], a, k) == Sum(rows, a, k) + Contribution(r, a, k)
  {
    if rows == [] {
      assert rows + [r] == [r];
    } else {
      assert (rows + [r])[1..] == rows[1..] + [r];
      SumAppend(rows[1..], r, a, k);
    }
  }

  lemma {:induction false} SumUpdate(rows: seq<Row>, i: nat, r: Row, a: AssetId, k: Kind)
    requires i < |rows|
    ensures Sum(rows[i := r], a, k) == Sum(rows, a, k) - Contribution(rows[i], a, k) + Contribution(r, a, k)
    ensures Sum(rows, a, k) >= Contribution(rows[i], a, k)
  {
    if i == 0 {
      assert rows[0 := r][1..] == rows[1..];
    } else {
      assert rows[i := r][1..] == rows[1..][i - 1 := r];
      SumUpdate(rows[1..], i - 1, r, a, k);
    }
  }

  /** One more row adds its user when the flag is set. */
  lemma FlaggersFirst(rows: seq<Row>, a: AssetId, k: Kind)
    requires UniqueRows(rows) && rows != []
    ensures
      var r := rows[0];
      if r.asset == a && r.stats.Value(k) == 1
      then Flaggers(rows, a, k) == Flaggers(rows[1..], a, k) + {r.user} && r.user !in Flaggers(rows[1..], a, k)
      else Flaggers(rows, a, k) == Flaggers(rows[1..], a, k)
  {
    hide Stats.Value;
    var r, rest := rows[0], rows[1..];
    assert forall q :: q in rows <==> q == r || q in rest;
    assert forall q :: q in rest ==> q.user != r.user || q.asset != r.asset;
  }

  /** With one row per (user, asset), the sum of a flag is a head count. */
  lemma {:induction false} SumCountsFlaggers(rows: seq<Row>, a: AssetId, k: Kind)
    requires UniqueRows(rows) && k.Singleton()
    ensures Sum(rows, a, k) == |Flaggers(rows, a, k)|
  {
    if rows != [] {
      hide Flaggers;
      SumCountsFlaggers(rows[1..], a, k);
      FlaggersFirst(rows, a, k);
    }
  }
}
