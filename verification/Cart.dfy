/**
 The three cart stores of each user and the periodic offload
 (app/controllers/cart/cart_methods.py, app/controllers/cart/routines/offload_task.py).
 */
module Cart {
  import opened Prelude

  type User = int
  type AssetId = int

  datatype Item = Item(quantity: int, coverUrl: string, title: string, price: real)

  type Items = map<AssetId, Item>

  /** One user's keys; None is an absent key, Some(map[]) a stored empty object. */
  datatype Cart = Cart(cart: Option<Items>, preOffload: Option<Items>, preDeletion: Option<Items>)

  const NO_CART := Cart(None, None, None)

  function Loaded(key: Option<Items>): Items {
    match key case None => map[] case Some(m) => m
  }

  /** Write an object back, or delete the key when the object is empty. */
  function OrDelete(m: Items): Option<Items> {
    if m == map[] then None else Some(m)
  }

  /** What the two visible stores show; the cart overrides the pre-offload store. */
  function Shown(c: Cart): Items {
    Loaded(c.preOffload) + Loaded(c.cart)
  }

  function GetCart(c: Cart, database: Items): Items {
    if Shown(c) != map[] then Shown(c) else database
  }

  function AfterGet(c: Cart, database: Items): Cart {
    if Shown(c) == map[] && database != map[] then c.(cart := Some(database)) else c
  }

  function Add(c: Cart, asset: AssetId, item: Item): Cart {
    if asset in Loaded(c.preDeletion) then
      c.(preDeletion := OrDelete(Loaded(c.preDeletion) - {asset}),
         cart := Some(Loaded(c.cart)[asset := item]))
    else if c.cart.Some? && asset !in c.cart.value then
      c.(cart := Some(c.cart.value[asset := item]))
    else if asset !in Loaded(c.preOffload) then
      c.(preOffload := Some(Loaded(c.preOffload)[asset := item]))
    else c
  }

  function Remove(c: Cart, asset: AssetId): Cart {
    if asset in Loaded(c.preOffload) then
      c.(preOffload := OrDelete(Loaded(c.preOffload) - {asset}))
    else if asset in Loaded(c.cart) then
      c.(cart := OrDelete(Loaded(c.cart) - {asset}),
         preDeletion := Some(Loaded(c.preDeletion)[asset := Loaded(c.cart)[asset]]))
    else c
  }

  function Clear(c: Cart): Cart {
    if Shown(c) == map[] then c
    else Cart(if Loaded(c.cart) == map[] then c.cart else None,
              if Loaded(c.preOffload) == map[] then c.preOffload else None,
              Some(Loaded(c.preDeletion) + Shown(c)))
  }

  /** The offload of one user: the pre-offload object overwrites the cart, and is
      deleted when the insert into the database succeeded. */
  function Offloaded(c: Cart, inserted: bool): Cart {
    if c.preOffload.None? then c
    else c.(cart := c.preOffload, preOffload := if inserted then None else c.preOffload)
  }

  // --------------------------------------------------------------------
  // All users
  // --------------------------------------------------------------------

  datatype CartRow = CartRow(user: User, asset: AssetId, quantity: int)

  datatype Store = Store(carts: map<User, Cart>) {
    function Of(u: User): Cart {
      if u in carts then carts[u] else NO_CART
    }

    function With(u: User, c: Cart): Store {
      Store(carts[u := c])
    }
  }

  const EMPTY := Store(map[])

  datatype Op =
    | Get(user: User, database: Items)
    | AddItem(user: User, asset: AssetId, item: Item)
    | RemoveItem(user: User, asset: AssetId)
    | ClearAll(user: User)
    | Offload(pages: seq<seq<User>>, inserted: bool)
    | Expire(user: User)                             // the cart key's time is up

  /** The scan stops at the first empty page, even if more pages would follow. */
  function Scanned(pages: seq<seq<User>>): set<User> {
    if pages == [] || pages[0] == [] then {} else Elements(pages[0]) + Scanned(pages[1..])
  }

  function Step(s: Store, op: Op): Store {
    match op
    case Get(u, database) => s.With(u, AfterGet(s.Of(u), database))
    case AddItem(u, asset, item) => s.With(u, Add(s.Of(u), asset, item))
    case RemoveItem(u, asset) => s.With(u, Remove(s.Of(u), asset))
    case ClearAll(u) => s.With(u, Clear(s.Of(u)))
    case Offload(pages, inserted) =>
      Store(map u | u in s.carts :: if u in Scanned(pages) then Offloaded(s.carts[u], inserted) else s.carts[u])
    case Expire(u) => s.With(u, s.Of(u).(cart := None))
  }

  function Run(s: Store, ops: seq<Op>): Store
    decreases |ops|
  {
    if ops == [] then s else Run(Step(s, ops[0]), ops[1..])
  }

  // --------------------------------------------------------------------
  // Invariants
  // --------------------------------------------------------------------

  /** No key stores an empty object. */
  predicate NoEmptyObject(c: Cart) {
    c.cart != Some(map[]) && c.preOffload != Some(map[]) && c.preDeletion != Some(map[])
  }

  /** Nothing waits both to be stored and to be deleted. */
  predicate Apart(c: Cart) {
    Loaded(c.preOffload).Keys !! Loaded(c.preDeletion).Keys
  }

  ghost predicate Valid(s: Store) {
    forall u :: u in s.carts ==> NoEmptyObject(s.carts[u]) && Apart(s.carts[u])
  }

  lemma AddKeeps(c: Cart, asset: AssetId, item: Item)
    requires NoEmptyObject(c) && Apart(c)
    ensures NoEmptyObject(Add(c, asset, item)) && Apart(Add(c, asset, item))
  {
    var d := Add(c, asset, item);
    assert d.cart.Some? && d.cart != c.cart ==> asset in d.cart.value;
    assert d.preOffload.Some? && d.preOffload != c.preOffload ==> asset in d.preOffload.value;
  }

  lemma RemoveKeeps(c: Cart, asset: AssetId)
    requires NoEmptyObject(c) && Apart(c)
    ensures NoEmptyObject(Remove(c, asset)) && Apart(Remove(c, asset))
  {
    var d := Remove(c, asset);
    assert d.preDeletion.Some? && d.preDeletion != c.preDeletion ==> asset in d.preDeletion.value;
  }

  lemma ClearKeeps(c: Cart)
    requires NoEmptyObject(c) && Apart(c)
    ensures NoEmptyObject(Clear(c)) && Apart(Clear(c))
  {
    if Shown(c) != map[] {
      var a := Member(Shown(c).Keys);
      assert a in Clear(c).preDeletion.value;
    }
  }

  lemma StepKeepsValid(s: Store, op: Op)
    requires Valid(s)
    ensures Valid(Step(s, op))
  {
    match op
    case Get(u, database) =>
    case AddItem(u, asset, item) => AddKeeps(s.Of(u), asset, item);
    case RemoveItem(u, asset) => RemoveKeeps(s.Of(u), asset);
    case ClearAll(u) => ClearKeeps(s.Of(u));
    case Offload(pages, inserted) =>
    case Expire(u) =>
  }

  lemma {:induction false} RunKeepsValid(s: Store, ops: seq<Op>)
    requires Valid(s)
    ensures Valid(Run(s, ops))
    decreases |ops|
  {
    if ops != [] {
      StepKeepsValid(s, ops[0]);
      RunKeepsValid(Step(s, ops[0]), ops[1..]);
    }
  }

  /** In every reachable state, for every user: the pre-offload and pre-deletion
      stores share no asset and no key holds an empty object. */
  lemma EveryRunIsValid(ops: seq<Op>, u: User)
    ensures var c := Run(EMPTY, ops).Of(u); NoEmptyObject(c) && Apart(c)
  {
    RunKeepsValid(EMPTY, ops);
  }

  // --------------------------------------------------------------------
  // Nothing is forgotten
  // --------------------------------------------------------------------

  /** The assets in the cart or waiting to be deleted. */
  function Remembered(c: Cart): set<AssetId> {
    Loaded(c.cart).Keys + Loaded(c.preDeletion).Keys
  }

  /** A user operation: anything but the offload and the expiry of the cart key. */
  predicate ByUser(op: Op) {
    !op.Offload? && !op.Expire?
  }

  lemma UserStepRemembers(s: Store, op: Op, u: User)
    requires ByUser(op)
    ensures Remembered(s.Of(u)) <= Remembered(Step(s, op).Of(u))
  {
    var c := s.Of(op.user);
    match op
    case Get(_, database) =>
      if Shown(c) == map[] { assert Loaded(c.cart).Keys <= Shown(c).Keys; }
    case AddItem(_, asset, item) =>
    case RemoveItem(_, asset) =>
    case ClearAll(_) =>
      assert Loaded(c.cart).Keys <= Shown(c).Keys;
  }

  /** Across adds, removals, clears and reads, an asset once in the cart or in the
      pre-deletion store stays in one of them. */
  lemma {:induction false} UserRunRemembers(s: Store, ops: seq<Op>, u: User)
    requires forall i :: 0 <= i < |ops| ==> ByUser(ops[i])
    ensures Remembered(s.Of(u)) <= Remembered(Run(s, ops).Of(u))
    decreases |ops|
  {
    if ops != [] {
      UserStepRemembers(s, ops[0], u);
      UserRunRemembers(Step(s, ops[0]), ops[1..], u);
    }
  }

  /** An offload overwrites the cart: it forgets nothing exactly when every cart
      asset is also waiting to be stored or to be deleted. */
  lemma OffloadRemembersIff(s: Store, pages: seq<seq<User>>, inserted: bool, u: User)
    requires u in s.carts && u in Scanned(pages) && s.carts[u].preOffload.Some?
    ensures
      var c := s.carts[u];
      Remembered(c) <= Remembered(Step(s, Offload(pages, inserted)).Of(u)) <==>
      Loaded(c.cart).Keys <= Loaded(c.preOffload).Keys + Loaded(c.preDeletion).Keys
  {
    var c := s.carts[u];
    assert Step(s, Offload(pages, inserted)).Of(u) == Offloaded(c, inserted);
  }

  // --------------------------------------------------------------------
  // Store by store
  // --------------------------------------------------------------------

  /** What a key holds of an asset. */
  function Held(key: Option<Items>, asset: AssetId): Option<Item> {
    if key.Some? && asset in key.value then Some(key.value[asset]) else None
  }

  /** No store changes at any other asset. */
  ghost predicate OnlyAt(c: Cart, d: Cart, asset: AssetId) {
    forall a :: a != asset ==>
      && Held(d.cart, a) == Held(c.cart, a) && Held(d.preOffload, a) == Held(c.preOffload, a)
      && Held(d.preDeletion, a) == Held(c.preDeletion, a)
  }

  lemma DroppedHeld(key: Option<Items>, asset: AssetId)
    ensures forall a :: Held(OrDelete(Loaded(key) - {asset}), a) == if a == asset then None else Held(key, a)
  {
    forall a ensures Held(OrDelete(Loaded(key) - {asset}), a) == if a == asset then None else Held(key, a) {
      assert Loaded(key) - {asset} == map[] ==> a !in Loaded(key) - {asset};
    }
  }

  /** An asset waiting for deletion goes back to the cart; one missing from an existing
      cart goes into it; any other starts waiting to be stored, unless it does already. */
  lemma AddMeaning(c: Cart, asset: AssetId, item: Item)
    ensures
      var d := Add(c, asset, item);
      && OnlyAt(c, d, asset)
      && if Held(c.preDeletion, asset).Some? then
           Held(d.preDeletion, asset) == None && Held(d.cart, asset) == Some(item) && d.preOffload == c.preOffload
         else if c.cart.Some? && Held(c.cart, asset) == None then
           d.preDeletion == c.preDeletion && Held(d.cart, asset) == Some(item) && d.preOffload == c.preOffload
         else
           && d.preDeletion == c.preDeletion && d.cart == c.cart
           && Held(d.preOffload, asset) == if Held(c.preOffload, asset) == None then Some(item)
                                           else Held(c.preOffload, asset)
  {
    DroppedHeld(c.preDeletion, asset);
  }

  /** An asset waiting to be stored stops waiting; any other leaves the cart with its
      details for the pre-deletion store. */
  lemma RemoveMeaning(c: Cart, asset: AssetId)
    ensures
      var d := Remove(c, asset);
      && OnlyAt(c, d, asset)
      && if Held(c.preOffload, asset).Some? then
           Held(d.preOffload, asset) == None && d.cart == c.cart && d.preDeletion == c.preDeletion
         else if Held(c.cart, asset).Some? then
           && d.preOffload == c.preOffload && Held(d.cart, asset) == None
           && Held(d.preDeletion, asset) == Held(c.cart, asset)
         else d == c
  {
    DroppedHeld(c.preOffload, asset);
    DroppedHeld(c.cart, asset);
  }

  /** Whatever was in the cart or waiting to be stored waits to be deleted, the cart's
      details taking precedence, and nothing is left of it in those two. */
  lemma ClearMeaning(c: Cart, asset: AssetId)
    ensures
      var d := Clear(c);
      && Held(d.cart, asset) == None && Held(d.preOffload, asset) == None
      && Held(d.preDeletion, asset) ==
           (if Held(c.cart, asset).Some? then Held(c.cart, asset)
            else if Held(c.preOffload, asset).Some? then Held(c.preOffload, asset) else Held(c.preDeletion, asset))
  {
    if Shown(c) == map[] {
      assert asset !in Shown(c);
    }
  }

  /** Reading shows the cart over what waits to be stored, and the database when both are
      empty; only then the cart changes, to what the database returned. */
  lemma GetMeaning(c: Cart, database: Items, asset: AssetId)
    ensures
      var empty := forall a :: Held(c.cart, a) == None && Held(c.preOffload, a) == None;
      var shown := GetCart(c, database);
      && (asset in shown <==> if empty then asset in database
                              else Held(c.cart, asset).Some? || Held(c.preOffload, asset).Some?)
      && (asset in shown && empty ==> shown[asset] == database[asset])
      && (asset in shown && !empty ==>
            Some(shown[asset]) == if Held(c.cart, asset).Some? then Held(c.cart, asset) else Held(c.preOffload, asset))
      && AfterGet(c, database) == if empty && database != map[] then c.(cart := Some(database)) else c
  {
    if Shown(c) != map[] {
      var a := Member(Shown(c).Keys);
      assert Held(c.cart, a).Some? || Held(c.preOffload, a).Some?;
    } else {
      forall a ensures Held(c.cart, a) == None && Held(c.preOffload, a) == None { assert a !in Shown(c); }
    }
  }

  /** Every operation but the offload concerns one user; an expiry takes the cart key and
      nothing else. */
  lemma StepAt(s: Store, op: Op, v: User)
    requires !op.Offload?
    ensures
      var before, now := s.Of(v), Step(s, op).Of(v);
      if v != op.user then now == before
      else match op
        case Get(_, database) => now == AfterGet(before, database)
        case AddItem(_, asset, item) => now == Add(before, asset, item)
        case RemoveItem(_, asset) => now == Remove(before, asset)
        case ClearAll(_) => now == Clear(before)
        case Expire(_) => now == Cart(None, before.preOffload, before.preDeletion)
  {
  }

  /** The users found are those on the pages before the first empty one. */
  lemma {:induction false} ScannedMeaning(pages: seq<seq<User>>, u: User)
    ensures u in Scanned(pages) <==>
            exists k :: 0 <= k < |pages| && u in pages[k] && forall j :: 0 <= j < k ==> pages[j] != []
  {
    if pages != [] && pages[0] != [] {
      ScannedMeaning(pages[1..], u);
      if k :| 0 <= k < |pages[1..]| && u in pages[1..][k] && forall j :: 0 <= j < k ==> pages[1..][j] != [] {
        assert u in pages[k + 1] && forall j :: 0 < j < k + 1 ==> pages[j] == pages[1..][j - 1];
      }
      if k :| 0 <= k < |pages| && u in pages[k] && forall j :: 0 <= j < k ==> pages[j] != [] {
        if k > 0 {
          assert u in pages[1..][k - 1] && forall j :: 0 <= j < k - 1 ==> pages[1..][j] == pages[j + 1];
        }
      }
    }
  }

  /** An offload puts what waits to be stored into the place of the cart and, when the
      insert succeeds, nothing is left waiting; nothing else changes for anybody. */
  lemma OffloadMeaning(s: Store, pages: seq<seq<User>>, inserted: bool, u: User)
    requires u in s.carts
    ensures
      var t, c := Step(s, Offload(pages, inserted)), s.carts[u];
      && u in t.carts && t.carts.Keys == s.carts.Keys
      && t.carts[u] == if u in Scanned(pages) && c.preOffload.Some?
                       then Cart(c.preOffload, if inserted then None else c.preOffload, c.preDeletion) else c
  {
  }

  // --------------------------------------------------------------------
  // What the user sees
  // --------------------------------------------------------------------

  /** After an add the asset is shown, with the new details exactly when it was
      not already shown with others, was waiting for deletion, or was missing
      from an existing cart. */
  lemma AddIsShown(c: Cart, asset: AssetId, item: Item, database: Items)
    ensures
      var now := GetCart(Add(c, asset, item), database);
      && asset in now
      && (now[asset] == item <==>
            || asset in Loaded(c.preDeletion)
            || (c.cart.Some? && asset !in c.cart.value)
            || asset !in Shown(c)
            || Shown(c)[asset] == item)
  {
    var d := Add(c, asset, item);
    assert asset in Shown(d);
  }

  /** What `get_cart` shows of one asset. */
  function Displayed(c: Cart, database: Items, asset: AssetId): Option<Item> {
    if asset in GetCart(c, database) then Some(GetCart(c, database)[asset]) else None
  }

  lemma ShownAfterAdd(c: Cart, asset: AssetId, item: Item, other: AssetId)
    requires other != asset
    ensures asset in Shown(Add(c, asset, item))
    ensures other in Shown(Add(c, asset, item)) <==> other in Shown(c)
    ensures other in Shown(c) ==> Shown(Add(c, asset, item))[other] == Shown(c)[other]
  {
  }

  /** An add leaves what is shown of another asset alone exactly when the two
      visible stores held something, or the database has no row for that asset:
      from empty stores the reload that showed it no longer happens. */
  lemma AddShowsOthersIff(c: Cart, asset: AssetId, item: Item, other: AssetId, database: Items)
    requires other != asset
    ensures Displayed(Add(c, asset, item), database, other) == Displayed(c, database, other)
            <==> Shown(c) != map[] || other !in database
    ensures (other in GetCart(Add(c, asset, item), database) <==> other in GetCart(c, database))
            <==> Shown(c) != map[] || other !in database
  {
    ShownAfterAdd(c, asset, item, other);
    var d := Add(c, asset, item);
    assert Shown(d) != map[] by { assert asset in Shown(d); }
    assert Shown(c) == map[] ==> other !in Shown(d);
  }

  /** A user whose cart key expired sees the stored asset 7, adds 5, and 7 is gone. */
  lemma AddHidesStored(item: Item, stored: Item)
    ensures
      var database := map[7 := stored];
      && Displayed(NO_CART, database, 7) == Some(stored)
      && Displayed(Add(NO_CART, 5, item), database, 7) == None
  {
    AddShowsOthersIff(NO_CART, 5, item, 7, map[7 := stored]);
    ShownAfterAdd(NO_CART, 5, item, 7);
    assert Shown(NO_CART) == map[];
  }

  predicate InBoth(c: Cart, asset: AssetId) {
    asset in Loaded(c.preOffload) && asset in Loaded(c.cart)
  }

  lemma ShownAfterRemove(c: Cart, asset: AssetId, other: AssetId)
    ensures asset in Shown(Remove(c, asset)) <==> InBoth(c, asset)
    ensures other != asset ==>
              && (other in Shown(Remove(c, asset)) <==> other in Shown(c))
              && (other in Shown(c) ==> Shown(Remove(c, asset))[other] == Shown(c)[other])
    ensures Shown(Remove(c, asset)) == map[] <==> !InBoth(c, asset) && Shown(c).Keys - {asset} == {}
  {
    var d := Remove(c, asset);
    assert Shown(d).Keys == if InBoth(c, asset) then Shown(c).Keys else Shown(c).Keys - {asset};
    assert Shown(d) == map[] <==> Shown(d).Keys == {};
  }

  /** A removal hides the asset exactly when it was not in both visible stores and
      no reload brings it back: another asset is still shown, or the database has
      no row for it. */
  lemma RemoveHidesIff(c: Cart, asset: AssetId, database: Items)
    ensures asset !in GetCart(Remove(c, asset), database)
            <==> !InBoth(c, asset) && (Shown(c).Keys - {asset} != {} || asset !in database)
  {
    ShownAfterRemove(c, asset, asset);
  }

  /** It leaves what is shown of another asset alone exactly when it does not empty
      the visible stores, or they were empty, or the database has no such row. */
  lemma RemoveShowsOthersIff(c: Cart, asset: AssetId, other: AssetId, database: Items)
    requires other != asset
    ensures Displayed(Remove(c, asset), database, other) == Displayed(c, database, other)
            <==> Shown(c).Keys != {asset} || InBoth(c, asset) || other !in database
  {
    ShownAfterRemove(c, asset, other);
    assert Shown(c) == map[] <==> Shown(c).Keys == {};
    if Shown(c).Keys == {asset} { assert other !in Shown(c); }
  }

  /** The last asset of a cart is removed and comes back from the database. */
  lemma RemovedComesBack(item: Item, stored: Item)
    ensures
      var c := Cart(Some(map[5 := item]), None, None);
      !InBoth(c, 5) && Displayed(Remove(c, 5), map[5 := stored], 5) == Some(stored)
  {
    var c := Cart(Some(map[5 := item]), None, None);
    assert Shown(c) == map[5 := item];
    assert Shown(c).Keys - {5} == {};
    ShownAfterRemove(c, 5, 5);
  }

  /** A cleared cart shows whatever the database returns, deleted or not. */
  lemma ClearedCartReloads(c: Cart, database: Items)
    ensures Shown(Clear(c)) == map[] && GetCart(Clear(c), database) == database
  {
    if Shown(c) != map[] {
      assert Loaded(Clear(c).cart) == map[] && Loaded(Clear(c).preOffload) == map[];
    }
  }
}
