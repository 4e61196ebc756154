/**
 The main results about interaction persistence, over every batch and every run.
 */
module InteractionTheorems {
  import opened Prelude
  import opened Interactions
  import opened InteractionProofs

  // --------------------------------------------------------------------
  // The collapse keeps the net effect
  // --------------------------------------------------------------------

  lemma {:induction false} NetAppend(x: seq<Group>, y: seq<Group>, replay: bool, b: AssetId, l: Kind)
    ensures Net(x + y, replay, b, l) == Net(x, replay, b, l).Then(Net(y, replay, b, l))
  {
    if x == [] {
      assert x + y == y;
    } else {
      assert (x + y)[1..] == x[1..] + y;
      NetAppend(x[1..], y, replay, b, l);
    }
  }

  lemma NetCons(g: Group, y: seq<Group>, replay: bool, b: AssetId, l: Kind)
    ensures Net([g] + y, replay, b, l) == NetGroup(g, replay, b, l).Then(Net(y, replay, b, l))
  {
    assert ([g] + y)[1..] == y;
  }

  lemma {:induction false} NetTallied(gs: seq<Group>, b: AssetId, l: Kind)
    ensures l.Singleton() ==> Net(Tallied(gs), false, b, l) == STAY
    ensures !l.Singleton() ==> Net(Tallied(gs), false, b, l).n == Net(DropIdle(gs), true, b, l).n
  {
    hide Applied;
    if gs != [] {
      NetTallied(gs[1..], b, l);
      NetCons(gs[0], Tallied(gs[1..]), false, b, l);
      NetCons(gs[0], DropIdle(gs[1..]), true, b, l);
    }
  }

  lemma {:induction false} NetFlagged(gs: seq<Group>, b: AssetId, l: Kind)
    ensures l.Singleton() ==> Net(Flagged(gs), false, b, l).last == Net(DropIdle(gs), true, b, l).last
    ensures !l.Singleton() ==> Net(Flagged(gs), false, b, l) == STAY
  {
    hide Applied;
    if gs != [] {
      NetFlagged(gs[1..], b, l);
      NetCons(gs[0].(events := LastOnly(gs[0].events)), Flagged(gs[1..]), false, b, l);
      NetCons(gs[0], DropIdle(gs[1..]), true, b, l);
    }
  }

  /** What decides whether a group makes the batch fail, and where it creates a row. */
  datatype Key = Key(asset: AssetId, kind: Kind, empty: bool)

  function KeyOf(g: Group): Key {
    Key(g.asset, g.kind, g.events == [])
  }

  function Keys(gs: seq<Group>): set<Key> {
    set g | g in gs :: KeyOf(g)
  }

  lemma KeysCons(g: Group, y: seq<Group>)
    ensures Keys([g] + y) == {KeyOf(g)} + Keys(y)
  {
    assert forall h :: h in [g] + y <==> h == g || h in y;
  }

  /** The collapse drops and reorders events, but no key. */
  lemma {:induction false} CollapseKeepsKeys(gs: seq<Group>)
    ensures Keys(Tallied(gs)) + Keys(Flagged(gs)) == Keys(DropIdle(gs))
  {
    if gs != [] {
      var g, rest := gs[0], gs[1..];
      CollapseKeepsKeys(rest);
      KeysCons(g, Tallied(rest));
      KeysCons(g.(events := LastOnly(g.events)), Flagged(rest));
      KeysCons(g, DropIdle(rest));
    }
  }

  lemma CollapseKeys(gs: seq<Group>)
    ensures Keys(Collapse(gs)) == Keys(DropIdle(gs))
  {
    CollapseKeepsKeys(gs);
    assert Keys(Tallied(gs) + Flagged(gs)) == Keys(Tallied(gs)) + Keys(Flagged(gs));
  }

  lemma {:induction false} DropIdleMembers(gs: seq<Group>, g: Group)
    ensures g in DropIdle(gs) <==> g in gs && !Idle(g)
  {
    if gs != [] { DropIdleMembers(gs[1..], g); }
  }

  lemma {:induction false} TalliedIff(gs: seq<Group>, h: Group)
    ensures h in Tallied(gs) <==> h in gs && !IsFlag(h.kind)
  {
    if gs != [] { TalliedIff(gs[1..], h); }
  }

  /** `h` is what the collapse leaves of a like/save/cart list: its last event. */
  predicate IsLastOf(h: Group, g: Group) {
    && IsFlag(g.kind) && g.events != []
    && h == Group(g.asset, g.kind, [g.events[|g.events| - 1]])
  }

  lemma {:induction false} FlaggedIff(gs: seq<Group>, h: Group)
    ensures h in Flagged(gs) <==> exists g :: g in gs && IsLastOf(h, g)
  {
    if gs != [] {
      FlaggedIff(gs[1..], h);
      assert forall g :: g in gs <==> g == gs[0] || g in gs[1..];
      assert h in Flagged(gs) <==> IsLastOf(h, gs[0]) || h in Flagged(gs[1..]);
    }
  }

  /** The collapse keeps every tallied list whole and of every like/save/cart list the
      last event, and has nothing else. */
  lemma CollapseMembers(gs: seq<Group>, h: Group)
    ensures h in Collapse(gs) <==> (h in gs && !IsFlag(h.kind)) || exists g :: g in gs && IsLastOf(h, g)
  {
    TalliedIff(gs, h);
    FlaggedIff(gs, h);
    assert h in Collapse(gs) <==> h in Tallied(gs) || h in Flagged(gs);
  }

  /** After the collapse a like/save/cart list has at most one event. */
  lemma CollapsedListsAreShort(gs: seq<Group>)
    ensures forall g :: g in Collapse(gs) && IsFlag(g.kind) ==> |g.events| == 1
  {
    forall g | g in Collapse(gs) && IsFlag(g.kind) ensures |g.events| == 1 { CollapseMembers(gs, g); }
  }

  lemma KeysDecideMentions(x: seq<Group>, y: seq<Group>, b: AssetId)
    requires Keys(x) <= Keys(y) && Mentions(x, b)
    ensures Mentions(y, b)
  {
    var g :| g in x && g.asset == b;
    assert KeyOf(g) in Keys(y);
    var h :| h in y && KeyOf(h) == KeyOf(g);
    assert h.asset == b;
  }

  lemma KeysDecideFails(db: Db, x: seq<Group>, y: seq<Group>)
    requires Keys(x) <= Keys(y) && forall h :: h in y ==> !Fails(db, h)
    ensures forall g :: g in x ==> !Fails(db, g)
  {
    forall g | g in x ensures !Fails(db, g) {
      assert KeyOf(g) in Keys(y);
      var h :| h in y && KeyOf(h) == KeyOf(g);
    }
  }

  // --------------------------------------------------------------------
  // Collapse refines replay
  // --------------------------------------------------------------------

  /** Flags look only at the last action, tallies only at the number applied. */
  lemma SameMove(o: Obs, l: Kind, m: Move, n: Move)
    requires if l.Singleton() then m.last == n.last else m.n == n.n
    ensures Moved(o, l, m).value == Moved(o, l, n).value && Moved(o, l, m).counter == Moved(o, l, n).counter
  {
  }

  lemma SameFinal(db: Db, u: User, gs: seq<Group>, b: AssetId, l: Kind)
    requires Consistent(db)
    requires PersistBatch(db, u, gs).Some? && ReplayBatch(db, u, gs).Some?
    ensures
      var fast, slow := PersistBatch(db, u, gs).value.db, ReplayBatch(db, u, gs).value.db;
      && UserValue(fast, u, b, l) == UserValue(slow, u, b, l)
      && Counter(fast, b, l) == Counter(slow, b, l)
  {
    hide Counter, UserValue, Moved, Net, ApplyGroups, Consistent, Tallied, Flagged, DropIdle;
    CollapsedListsAreShort(gs);
    GroupsAt(Session(db, 0), u, Collapse(gs), false, b, l);
    GroupsAt(Session(db, 0), u, DropIdle(gs), true, b, l);
    NetAppend(Tallied(gs), Flagged(gs), false, b, l);
    NetTallied(gs, b, l);
    NetFlagged(gs, b, l);
    SameMove(Observe(db, u, b, l), l, Net(Collapse(gs), false, b, l), Net(DropIdle(gs), true, b, l));
  }

  lemma SameStats(x: Stats, y: Stats)
    requires forall l: Kind :: x.Value(l) == y.Value(l)
    ensures x == y
  {
    assert x.Value(Like) == y.Value(Like) && x.Value(Save) == y.Value(Save) && x.Value(Cart) == y.Value(Cart);
    assert x.Value(Share) == y.Value(Share) && x.Value(View) == y.Value(View);
    assert x.Value(Click) == y.Value(Click) && x.Value(Contact) == y.Value(Contact);
  }

  lemma SameAsset(x: Asset, y: Asset)
    requires x.agent == y.agent && forall l: Kind :: x.Counter(l) == y.Counter(l)
    ensures x == y
  {
    assert x.Counter(Like) == y.Counter(Like) && x.Counter(Save) == y.Counter(Save);
    assert x.Counter(Cart) == y.Counter(Cart);
    assert x.Counter(Share) == y.Counter(Share) && x.Counter(View) == y.Counter(View);
    assert x.Counter(Click) == y.Counter(Click) && x.Counter(Contact) == y.Counter(Contact);
  }

  /** A batch commits exactly when every group that is not an idle flag list
      names a known property and has no event of the unsupported kind; the
      returned count is the number of event rows added. */
  lemma BatchOutcome(db: Db, u: User, gs: seq<Group>)
    requires Consistent(db)
    ensures PersistBatch(db, u, gs).Some? <==>
            forall g :: g in gs && (g.events != [] || !IsFlag(g.kind)) ==>
              g.asset in db.assets && (g.events != [] ==> g.kind != SearchResultAppearance)
    ensures PersistBatch(db, u, gs).Some? ==>
              var r := PersistBatch(db, u, gs).value;
              && db.events <= r.db.events
              && r.count == |r.db.events| - |db.events|
              && r.db.assets.Keys == db.assets.Keys
  {
    hide Consistent, ApplyGroups, Collapse, DropIdle, Keys;
    CollapseKeys(gs);
    GroupsKeepConsistent(Session(db, 0), u, Collapse(gs), false, u, 0);
    forall g ensures g in DropIdle(gs) <==> g in gs && !Idle(g) { DropIdleMembers(gs, g); }
    if forall h :: h in DropIdle(gs) ==> !Fails(db, h) {
      KeysDecideFails(db, Collapse(gs), DropIdle(gs));
    }
    if forall h :: h in Collapse(gs) ==> !Fails(db, h) {
      KeysDecideFails(db, DropIdle(gs), Collapse(gs));
    }
  }

  lemma ReplayOutcome(db: Db, u: User, gs: seq<Group>)
    requires Consistent(db)
    ensures ReplayBatch(db, u, gs).Some? <==> forall g :: g in gs && !Idle(g) ==> !Fails(db, g)
    ensures ReplayBatch(db, u, gs).Some? ==> ReplayBatch(db, u, gs).value.db.assets.Keys == db.assets.Keys
  {
    GroupsKeepConsistent(Session(db, 0), u, DropIdle(gs), true, u, 0);
    forall g ensures g in DropIdle(gs) <==> g in gs && !Idle(g) { DropIdleMembers(gs, g); }
  }

  lemma AssetsAgree(db: Db, u: User, gs: seq<Group>, b: AssetId)
    requires Consistent(db) && b in db.assets
    requires PersistBatch(db, u, gs).Some? && ReplayBatch(db, u, gs).Some?
    ensures
      var fast, slow := PersistBatch(db, u, gs).value.db, ReplayBatch(db, u, gs).value.db;
      b in fast.assets && b in slow.assets && fast.assets[b] == slow.assets[b]
  {
    hide Consistent, ApplyGroups, Asset.Counter;
    var fast, slow := PersistBatch(db, u, gs).value.db, ReplayBatch(db, u, gs).value.db;
    GroupsKeepConsistent(Session(db, 0), u, Collapse(gs), false, u, b);
    GroupsKeepConsistent(Session(db, 0), u, DropIdle(gs), true, u, b);
    forall l: Kind ensures fast.assets[b].Counter(l) == slow.assets[b].Counter(l) {
      SameFinal(db, u, gs, b, l);
    }
    SameAsset(fast.assets[b], slow.assets[b]);
  }

  lemma StatsAgree(db: Db, u: User, gs: seq<Group>, v: User, b: AssetId)
    requires Consistent(db)
    requires PersistBatch(db, u, gs).Some? && ReplayBatch(db, u, gs).Some?
    ensures StatsOf(PersistBatch(db, u, gs).value.db, v, b) == StatsOf(ReplayBatch(db, u, gs).value.db, v, b)
  {
    hide Consistent, ApplyGroups, Stats.Value, Collapse, DropIdle, FindRow, Mentions;
    var fast, slow := PersistBatch(db, u, gs).value.db, ReplayBatch(db, u, gs).value.db;
    GroupsKeepConsistent(Session(db, 0), u, Collapse(gs), false, v, b);
    GroupsKeepConsistent(Session(db, 0), u, DropIdle(gs), true, v, b);
    if v == u {
      CollapseKeys(gs);
      if Mentions(Collapse(gs), b) { KeysDecideMentions(Collapse(gs), DropIdle(gs), b); }
      if Mentions(DropIdle(gs), b) { KeysDecideMentions(DropIdle(gs), Collapse(gs), b); }
      if HasRow(fast, u, b) {
        forall l: Kind ensures StatsOf(fast, u, b).value.Value(l) == StatsOf(slow, u, b).value.Value(l) {
          SameFinal(db, u, gs, b, l);
        }
        SameStats(StatsOf(fast, u, b).value, StatsOf(slow, u, b).value);
      }
    }
  }

  /** From any consistent state the collapsed batch and the plain replay succeed
      together, and then leave the same assets and, for every user and property,
      the same statistics row or absence of one. */
  lemma CollapseRefinesReplay(db: Db, u: User, gs: seq<Group>)
    requires Consistent(db)
    ensures PersistBatch(db, u, gs).Some? <==> ReplayBatch(db, u, gs).Some?
    ensures PersistBatch(db, u, gs).Some? ==>
              var fast, slow := PersistBatch(db, u, gs).value.db, ReplayBatch(db, u, gs).value.db;
              && fast.assets == slow.assets
              && forall v, b :: StatsOf(fast, v, b) == StatsOf(slow, v, b)
  {
    hide Consistent, StatsOf;
    BatchOutcome(db, u, gs);
    ReplayOutcome(db, u, gs);
    if PersistBatch(db, u, gs).Some? {
      var fast, slow := PersistBatch(db, u, gs).value.db, ReplayBatch(db, u, gs).value.db;
      forall b | b in db.assets ensures fast.assets[b] == slow.assets[b] {
        AssetsAgree(db, u, gs, b);
      }
      forall v, b ensures StatsOf(fast, v, b) == StatsOf(slow, v, b) {
        StatsAgree(db, u, gs, v, b);
      }
    }
  }

  // --------------------------------------------------------------------
  // What a batch means
  // --------------------------------------------------------------------

  predicate Absent(gs: seq<Group>, b: AssetId, l: Kind) {
    forall g :: g in gs ==> g.asset != b || g.kind != l
  }

  lemma OtherKeyStays(g: Group, b: AssetId, l: Kind)
    requires g.asset != b || g.kind != l
    ensures NetGroup(g, false, b, l) == STAY
  {
  }

  lemma {:induction false} NetAbsent(gs: seq<Group>, b: AssetId, l: Kind)
    requires Absent(gs, b, l)
    ensures Net(gs, false, b, l) == STAY
  {
    hide NetGroup;
    if gs != [] {
      NetAbsent(gs[1..], b, l);
      OtherKeyStays(gs[0], b, l);
    }
  }

  /** The collapsed batch has no key the batch does not have. */
  lemma {:induction false} CollapseAddsNoKey(gs: seq<Group>, b: AssetId, l: Kind)
    requires Absent(gs, b, l)
    ensures Absent(Tallied(gs), b, l) && Absent(Flagged(gs), b, l)
  {
    if gs != [] { CollapseAddsNoKey(gs[1..], b, l); }
  }

  lemma CollapseAbsent(gs: seq<Group>, b: AssetId, l: Kind)
    requires Absent(gs, b, l)
    ensures Net(Tallied(gs), false, b, l) == STAY
    ensures Net(Flagged(gs), false, b, l) == STAY
  {
    CollapseAddsNoKey(gs, b, l);
    NetAbsent(Tallied(gs), b, l);
    NetAbsent(Flagged(gs), b, l);
  }

  /** A group of another key adds nothing to the collapsed batch at (b, l). */
  lemma NetSkip(gs: seq<Group>, b: AssetId, l: Kind)
    requires gs != [] && (gs[0].asset != b || gs[0].kind != l)
    ensures Net(Tallied(gs), false, b, l) == Net(Tallied(gs[1..]), false, b, l)
    ensures Net(Flagged(gs), false, b, l) == Net(Flagged(gs[1..]), false, b, l)
  {
    hide Net, NetGroup, LastOnly;
    var last := gs[0].(events := LastOnly(gs[0].events));
    NetCons(gs[0], Tallied(gs[1..]), false, b, l);
    NetCons(last, Flagged(gs[1..]), false, b, l);
    OtherKeyStays(gs[0], b, l);
    OtherKeyStays(last, b, l);
  }

  lemma DistinctRest(gs: seq<Group>)
    requires DistinctKeys(gs) && gs != []
    ensures DistinctKeys(gs[1..]) && Absent(gs[1..], gs[0].asset, gs[0].kind)
  {
  }

  /** The collapsed batch does at the key of `g` what `g` alone does. */
  predicate KeyDecides(gs: seq<Group>, g: Group) {
    && Net(Tallied(gs), false, g.asset, g.kind) ==
         (if g.kind.Singleton() then STAY else NetGroup(g, false, g.asset, g.kind))
    && Net(Flagged(gs), false, g.asset, g.kind) ==
         (if g.kind.Singleton() && g.events != []
          then NetGroup(g.(events := LastOnly(g.events)), false, g.asset, g.kind) else STAY)
  }

  lemma {:induction false} NetOfFirst(gs: seq<Group>)
    requires DistinctKeys(gs) && gs != []
    ensures KeyDecides(gs, gs[0])
  {
    hide Net, NetGroup, LastOnly, DistinctKeys;
    var g, rest := gs[0], gs[1..];
    DistinctRest(gs);
    CollapseAbsent(rest, g.asset, g.kind);
    NetCons(g, Tallied(rest), false, g.asset, g.kind);
    NetCons(g.(events := LastOnly(g.events)), Flagged(rest), false, g.asset, g.kind);
  }

  /** With distinct keys the one group of a key alone decides its net effect. */
  lemma {:induction false} NetOfKey(gs: seq<Group>, i: nat)
    requires DistinctKeys(gs) && i < |gs|
    ensures KeyDecides(gs, gs[i])
  {
    if i == 0 {
      NetOfFirst(gs);
    } else {
      hide Net, NetGroup, LastOnly, Tallied, Flagged;
      var rest := gs[1..];
      assert rest[i - 1] == gs[i];
      NetOfKey(rest, i - 1);
      NetSkip(gs, gs[i].asset, gs[i].kind);
    }
  }

  lemma AppliedOnce(events: seq<Event>)
    ensures Applied(events, {}, true) == |Elements(events)|
    ensures events != [] ==> Applied(LastOnly(events), {}, true) == 1 && LastOf(LastOnly(events)) == LastOf(events)
  {
    assert Elements(events) - {} == Elements(events);
    if events != [] {
      assert Elements(LastOnly(events)) - {} == {events[|events| - 1]};
    }
  }

  /** The net effect of a whole collapsed batch at the key of its group `i`. */
  lemma NetOfCollapse(gs: seq<Group>, i: nat)
    requires DistinctKeys(gs) && i < |gs|
    ensures
      var g := gs[i];
      Net(Collapse(gs), false, g.asset, g.kind) ==
      Move(LastOf(g.events), if IsFlag(g.kind) then Min(1, |g.events|) else |Elements(g.events)|)
  {
    hide Tallied, Flagged, Net, DistinctKeys, Applied, LastOnly;
    var g := gs[i];
    NetOfKey(gs, i);
    NetAppend(Tallied(gs), Flagged(gs), false, g.asset, g.kind);
    AppliedOnce(g.events);
  }

  /** What one committed batch does at the key of one of its groups, stated
      without the collapse: a like/save/cart flag takes the last action of its
      list, a tally grows by the number of distinct events (own views excepted),
      and the public counter moves by what the user's statistic moves by. */
  lemma BatchMeaning(db: Db, u: User, gs: seq<Group>, i: nat)
    requires Consistent(db) && DistinctKeys(gs) && i < |gs| && PersistBatch(db, u, gs).Some?
    ensures
      var after := PersistBatch(db, u, gs).value.db;
      var Group(a, k, events) := gs[i];
      var distinct := |Elements(events)|;
      var before, now := UserValue(db, u, a, k), UserValue(after, u, a, k);
      && Counter(after, a, k) == Counter(db, a, k) + now - before
      && (IsFlag(k) && events != [] ==> now == if events[|events| - 1].action then 1 else 0)
      && (IsFlag(k) && events == [] ==> now == before)
      && (!IsFlag(k) && k != SearchResultAppearance ==>
            now == before + if k == View && Owns(db, u, a) then 0 else distinct)
      && Logged(after.events, u, a, k) == Logged(db.events, u, a, k)
           + if IsFlag(k) then Min(1, |events|) else distinct
  {
    hide Consistent, ApplyGroups, Collapse, Net, UserValue, Counter, Logged;
    var g := gs[i];
    CollapsedListsAreShort(gs);
    GroupsAt(Session(db, 0), u, Collapse(gs), false, g.asset, g.kind);
    NetOfCollapse(gs, i);
  }

  /** Away from its keys a batch changes nothing, for any user. */
  lemma BatchFrame(db: Db, u: User, gs: seq<Group>, v: User, b: AssetId, l: Kind)
    requires Consistent(db) && PersistBatch(db, u, gs).Some?
    requires v != u || Absent(gs, b, l)
    ensures UserValue(PersistBatch(db, u, gs).value.db, v, b, l) == UserValue(db, v, b, l)
    ensures v == u ==> Counter(PersistBatch(db, u, gs).value.db, b, l) == Counter(db, b, l)
  {
    hide Consistent, ApplyGroups, Net, Counter, Logged, StatsOf, FindRow, Moved;
    if v == u {
      CollapsedListsAreShort(gs);
      CollapseAbsent(gs, b, l);
      NetAppend(Tallied(gs), Flagged(gs), false, b, l);
      GroupsAt(Session(db, 0), u, Collapse(gs), false, b, l);
      MovedThen(Observe(db, u, b, l), l, STAY, STAY);
    } else {
      GroupsKeepConsistent(Session(db, 0), u, Collapse(gs), false, v, b);
    }
  }

  /** A committed batch makes no counter negative, whatever the database held. */
  lemma BatchKeepsNonNegative(db: Db, u: User, gs: seq<Group>)
    requires NoNegativeCounter(db) && PersistBatch(db, u, gs).Some?
    ensures NoNegativeCounter(PersistBatch(db, u, gs).value.db)
  {
    hide ApplyGroups, NoNegativeCounter;
    GroupsKeepNonNegative(Session(db, 0), u, Collapse(gs), false);
  }

  // --------------------------------------------------------------------
  // Every run
  // --------------------------------------------------------------------

  datatype Request = Request(user: User, groups: seq<Group>)

  /** An aborted batch is rolled back. */
  function Step(db: Db, r: Request): Db {
    match PersistBatch(db, r.user, r.groups)
    case None => db
    case Some(s) => s.db
  }

  function Run(db: Db, rs: seq<Request>): Db
    decreases |rs|
  {
    if rs == [] then db else Run(Step(db, rs[0]), rs[1..])
  }

  lemma {:induction false} RunKeepsConsistent(db: Db, rs: seq<Request>)
    requires Consistent(db)
    ensures Consistent(Run(db, rs)) && Run(db, rs).assets.Keys == db.assets.Keys
    decreases |rs|
  {
    if rs != [] {
      GroupsKeepConsistent(Session(db, 0), rs[0].user, Collapse(rs[0].groups), false, 0, 0);
      RunKeepsConsistent(Step(db, rs[0]), rs[1..]);
    }
  }

  /** Properties as they are created: no interaction yet. */
  ghost predicate Untouched(assets: map<AssetId, Asset>) {
    forall a, l :: a in assets ==> assets[a].Counter(l) == 0
  }

  /** After any sequence of batches by any users: one statistics row per (user,
      property); likes, saves and carts are head counts of the users whose flag
      is set; the other counters are sums over all users. */
  lemma CountersAreExactInEveryRun(assets: map<AssetId, Asset>, rs: seq<Request>, a: AssetId, l: Kind)
    requires Untouched(assets) && a in assets
    ensures
      var db := Run(Db(assets, [], []), rs);
      && UniqueRows(db.rows)
      && (IsFlag(l) ==> Counter(db, a, l) == |Flaggers(db.rows, a, l)|)
      && (!IsFlag(l) ==> Counter(db, a, l) == Sum(db.rows, a, l))
  {
    RunKeepsConsistent(Db(assets, [], []), rs);
    var db := Run(Db(assets, [], []), rs);
    if l.Singleton() { SumCountsFlaggers(db.rows, a, l); }
  }
}
