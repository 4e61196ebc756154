/**
 The cart handlers and the offload routine as they run.
 */
module CartService {
  import opened Prelude
  import opened Cart

  class CartStore {
    var store: Store
    var rows: seq<CartRow>    // the cart_items table, as far as the offload fills it

    constructor ()
      ensures store == EMPTY && rows == []
    {
      store, rows := EMPTY, [];
    }

    method Get(user: User, database: Items) returns (result: Items)
      modifies this
      ensures result == GetCart(old(store).Of(user), database)
      ensures store == Step(old(store), Op.Get(user, database)) && rows == old(rows)
    {
      var c := store.Of(user);
      result := map[];
      if c.preOffload.Some? {
        result := result + c.preOffload.value;
      }
      if c.cart.Some? {
        result := result + c.cart.value;
      }
      assert result == Shown(c);
      if result == map[] {
        if database != map[] {
          result := database;
          c := c.(cart := Some(database));
        }
      }
      store := store.With(user, c);
    }

    method AddToCart(user: User, asset: AssetId, details: Item)
      modifies this
      ensures store == Step(old(store), AddItem(user, asset, details)) && rows == old(rows)
    {
      var c := store.Of(user);
      var cartItems, deletionData := Loaded(c.cart), Loaded(c.preDeletion);
      if asset in deletionData {
        deletionData := deletionData - {asset};
        c := c.(preDeletion := if deletionData != map[] then Some(deletionData) else None);
        cartItems := cartItems[asset := details];
        store := store.With(user, c.(cart := Some(cartItems)));
        return;
      }
      if c.cart.Some? && asset !in cartItems {
        cartItems := cartItems[asset := details];
        store := store.With(user, c.(cart := Some(cartItems)));
        return;
      }
      var preOffloadData := Loaded(c.preOffload);
      if asset !in preOffloadData {
        preOffloadData := preOffloadData[asset := details];
        c := c.(preOffload := Some(preOffloadData));
      }
      store := store.With(user, c);
    }

    method RemoveFromCart(user: User, asset: AssetId)
      modifies this
      ensures store == Step(old(store), RemoveItem(user, asset)) && rows == old(rows)
    {
      var c := store.Of(user);
      var preOffloadData := Loaded(c.preOffload);
      if asset in preOffloadData {
        preOffloadData := preOffloadData - {asset};
        c := c.(preOffload := if preOffloadData != map[] then Some(preOffloadData) else None);
        store := store.With(user, c);
        return;
      }
      var cartData := Loaded(c.cart);
      if asset in cartData {
        var removed := cartData[asset];
        cartData := cartData - {asset};
        c := c.(cart := if cartData != map[] then Some(cartData) else None);
        var preDeletionData := Loaded(c.preDeletion);
        preDeletionData := preDeletionData[asset := removed];
        c := c.(preDeletion := Some(preDeletionData));
      }
      store := store.With(user, c);
    }

    method ClearCart(user: User)
      modifies this
      ensures store == Step(old(store), ClearAll(user)) && rows == old(rows)
    {
      var c := store.Of(user);
      var preOffloadData, cartData := Loaded(c.preOffload), Loaded(c.cart);
      var joint: Items := map[];
      if preOffloadData != map[] {
        joint := joint + preOffloadData;
        c := c.(preOffload := None);
      }
      if cartData != map[] {
        joint := joint + cartData;
        c := c.(cart := None);
      }
      assert joint == preOffloadData + cartData;
      if joint != map[] {
        c := c.(preDeletion := Some(Loaded(c.preDeletion) + joint));
      }
      store := store.With(user, c);
    }

    /** The scan over pre-offload keys: the users found before an empty page. */
    static method ScanKeys(pages: seq<seq<User>>) returns (users: set<User>)
      ensures users == Scanned(pages)
    {
      users := {};
      var i := 0;
      while i < |pages| && pages[i] != []
        invariant 0 <= i <= |pages| && users + Scanned(pages[i..]) == Scanned(pages)
      {
        assert pages[i..][0] == pages[i] && pages[i..][1..] == pages[i + 1..];
        users := users + Elements(pages[i]);
        i := i + 1;
      }
      assert Scanned(pages[i..]) == {};
    }

    /** One row per asset of a stored object, in some order. */
    static method Records(user: User, items: Items) returns (records: seq<CartRow>)
      ensures Elements(records) == set a | a in items :: CartRow(user, a, items[a].quantity)
      ensures |records| == |items|
    {
      records := [];
      var todo := items.Keys;
      while todo != {}
        invariant todo <= items.Keys && |records| + |todo| == |items.Keys|
        invariant Elements(records) == set a | a in items.Keys - todo :: CartRow(user, a, items[a].quantity)
        decreases |todo|
      {
        var a := Pick(todo);
        var record := CartRow(user, a, items[a].quantity);
        ghost var before := records;
        records := records + [record];
        assert Elements(records) == Elements(before) + {record};
        assert items.Keys - (todo - {a}) == (items.Keys - todo) + {a};
        todo := todo - {a};
      }
      assert |items.Keys| == |items|;
      assert items.Keys - {} == items.Keys;
    }

    /** The rows the offload should add: one per user found and asset waiting. */
    static ghost function Waiting(s: Store, users: set<User>): set<CartRow> {
      set u, a | u in users && a in Loaded(s.Of(u).preOffload) :: CartRow(u, a, Loaded(s.Of(u).preOffload)[a].quantity)
    }

    /** Set each user's cart to the pre-offload object and collect the rows. */
    method OverwriteCarts(users: set<User>) returns (bulkRecords: seq<CartRow>)
      requires forall u :: u in users ==> u in store.carts && store.carts[u].preOffload.Some?
      modifies this
      ensures rows == old(rows) && store.carts.Keys == old(store).carts.Keys
      ensures forall u :: u in store.carts ==>
                store.carts[u] == if u in users then Offloaded(old(store).carts[u], false) else old(store).carts[u]
      ensures Elements(bulkRecords) == Waiting(old(store), users)
    {
      hide Elements, Waiting;
      bulkRecords := [];
      NoElements<CartRow>();
      NoneWaiting(store);
      assert users - users == {};
      var todo := users;
      ghost var s := store;
      while todo != {}
        invariant todo <= users && rows == old(rows)
        invariant Overwritten(s, users - todo, store)
        invariant Elements(bulkRecords) == Waiting(s, users - todo)
        decreases |todo|
      {
        var u := Pick(todo);
        var c := store.carts[u];
        var records := Records(u, c.preOffload.value);
        ElementsAppend(bulkRecords, records);
        WaitingMore(s, users - todo, u);
        LessLeft(users, todo, u);
        bulkRecords := bulkRecords + records;
        OverwriteOne(s, users - todo, store, u);
        store := store.With(u, c.(cart := c.preOffload));
        todo := todo - {u};
      }
      assert users - {} == users;
    }

    /** The periodic offload. `inserted` tells whether the bulk insert succeeds;
        when it fails the carts have been overwritten but nothing is deleted. */
    method HandleCartOffload(pages: seq<seq<User>>, inserted: bool)
      requires Valid(store)
      requires forall u :: u in Scanned(pages) ==> u in store.carts && store.carts[u].preOffload.Some?
      modifies this
      ensures store == Step(old(store), Offload(pages, inserted))
      ensures old(rows) <= rows
      ensures Elements(rows[|old(rows)|..]) == if inserted then Waiting(old(store), Scanned(pages)) else {}
    {
      hide Waiting, Scanned, NoEmptyObject, Apart;
      var users := ScanKeys(pages);
      ghost var s := store;
      if users != {} { SomebodyWaits(s, users); }
      var bulkRecords := OverwriteCarts(users);
      assert users != {} ==> bulkRecords != [];
      if bulkRecords != [] && inserted {
        rows := rows + bulkRecords;
        store := Store(map u | u in store.carts ::
                         if u in users then store.carts[u].(preOffload := None) else store.carts[u]);
        assert rows[|old(rows)|..] == bulkRecords;
      } else {
        assert rows[|old(rows)|..] == [];
      }
      ghost var expected := Step(s, Offload(pages, inserted)).carts;
      forall u | u in s.carts ensures store.carts[u] == expected[u] {
        assert u in users ==> s.carts[u].preOffload.Some?;
      }
      assert store.carts == expected;
    }
  }

  lemma NoElements<T>()
    ensures Elements<T>([]) == {}
  {
  }

  lemma ElementsAppend<T>(x: seq<T>, y: seq<T>)
    ensures Elements(x + y) == Elements(x) + Elements(y)
  {
    assert forall e :: e in x + y <==> e in x || e in y;
  }

  /** The carts of `users` have been overwritten. */
  ghost predicate Overwritten(s: Store, users: set<User>, t: Store) {
    && t.carts.Keys == s.carts.Keys
    && forall u :: u in s.carts ==> t.carts[u] == if u in users then Offloaded(s.carts[u], false) else s.carts[u]
  }

  lemma OverwriteOne(s: Store, users: set<User>, t: Store, u: User)
    requires Overwritten(s, users, t) && u in s.carts && u !in users && s.carts[u].preOffload.Some?
    ensures Overwritten(s, users + {u}, t.With(u, t.carts[u].(cart := t.carts[u].preOffload)))
  {
  }

  lemma LessLeft(users: set<User>, todo: set<User>, u: User)
    requires todo <= users && u in todo
    ensures users - (todo - {u}) == (users - todo) + {u}
  {
  }

  lemma NoneWaiting(s: Store)
    ensures CartStore.Waiting(s, {}) == {}
  {
  }

  lemma WaitingMore(s: Store, users: set<User>, u: User)
    ensures
      var items := Loaded(s.Of(u).preOffload);
      CartStore.Waiting(s, users + {u}) ==
      CartStore.Waiting(s, users) + (set a | a in items :: CartRow(u, a, items[a].quantity))
  {
  }

  lemma SomebodyWaits(s: Store, users: set<User>)
    requires Valid(s) && users != {}
    requires forall u :: u in users ==> u in s.carts && s.carts[u].preOffload.Some?
    ensures CartStore.Waiting(s, users) != {}
  {
    var u := Member(users);
    var items := Loaded(s.Of(u).preOffload);
    assert NoEmptyObject(s.carts[u]);
    var a := Member(items.Keys);
    assert CartRow(u, a, items[a].quantity) in CartStore.Waiting(s, users);
  }
}
