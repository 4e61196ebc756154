/**
 Pending pools, the tokens in them, and which of them the dispatcher sends.
 */
module ChatDispatch {
  import opened Prelude
  import opened Strings
  import opened ChatKeys
  import opened ChatStore
  import opened ChatProofs
  import opened ChatRuns

  // --------------------------------------------------------------------
  // Pending pools
  // --------------------------------------------------------------------

  lemma {:induction false} AsListMeaning(kept: seq<string>, tokens: seq<string>)
    requires NoDuplicates(kept)
    ensures
      var r := AsList(kept, tokens);
      NoDuplicates(r) && Elements(r) == Elements(kept) + Elements(tokens)
    decreases |tokens|
  {
    if tokens != [] {
      var kept1 := if tokens[0] in kept then kept else kept + [tokens[0]];
      AsListMeaning(kept1, tokens[1..]);
      assert Elements(kept1) == Elements(kept) + {tokens[0]};
      assert Elements(tokens) == {tokens[0]} + Elements(tokens[1..]);
    }
  }

  /** A pool never holds a token twice; adding keeps every earlier token, and
      replacing keeps none. Other users' pools are untouched. */
  lemma PoolAfterAdding(s: Store, user: nat, tokens: seq<string>, replace: bool, other: nat)
    ensures
      var t := AddTokens(s, user, tokens, replace);
      && NoDuplicates(t.Pool(user))
      && Elements(t.Pool(user)) == (if replace then {} else Elements(s.Pool(user))) + Elements(tokens)
      && (other != user ==> t.Pool(other) == s.Pool(other))
  {
    var all := (if replace then [] else s.Pool(user)) + tokens;
    AsListMeaning([], all);
    assert forall x :: x in all <==> (!replace && x in s.Pool(user)) || x in tokens;
  }

  predicate Resolves(s: Store, token: string) {
    match ParseToken(token)
    case None => false
    case Some((key, ts)) => View(s, key, ts).Some?
  }

  /** A token left for an undelivered message resolves, then and for the rest of
      the run, whatever is cached or offloaded afterwards. */
  lemma TokensKeepResolving(s: Store, m: Message, ts: Timestamp, user: nat, later: seq<Op>)
    requires Valid(s) && SmallThreads(s.threads) && NamesLatest(s, m, ts) && ':' !in ts
    requires AllEnabled(Undelivered(s, m, ts, user), later)
    ensures Token(m.Key(), ts) in Undelivered(s, m, ts, user).Pool(user)
    ensures Resolves(Run(Undelivered(s, m, ts, user), later), Token(m.Key(), ts))
  {
    var op := DeliveryFailed(m, ts, user);
    var t := Undelivered(s, m, ts, user);
    StepKeepsValid(s, op);
    StepView(s, op, m.Key(), ts);
    RunView(t, later, m.Key(), ts);
    TokenRoundTripIff(m.sender, m.recipient, ts);
    var token := Token(m.Key(), ts);
    PoolAfterAdding(CacheDialogue(s, m, ts), user, [token], false, user);
    assert token in Elements([token]);
    assert token in Elements(t.Pool(user));
  }

  // --------------------------------------------------------------------
  // Dispatch
  // --------------------------------------------------------------------

  /** The message sent for a token: only the cache is consulted. */
  function Sent(s: Store, token: string): Option<Message> {
    match ParseToken(token)
    case None => None
    case Some((key, ts)) => Find(s.Pending(key), ts)
  }

  lemma CachedIsVisible(s: Store, key: string, ts: Timestamp)
    requires Find(s.Pending(key), ts).Some?
    ensures View(s, key, ts).Some? && s.Pending(key) != []
  {
  }

  // --------------------------------------------------------------------
  // Which pending tokens are sent
  // --------------------------------------------------------------------

  predicate Offloads(op: Op, key: string) {
    op.OffloadPair? && DialogueKey(op.a, op.b) == key
  }

  /** The message one operation leaves in the cache at (key, ts). */
  function CachedAfter(op: Op, key: string, ts: Timestamp, was: Option<Message>): Option<Message> {
    if Caches(op, key, ts) then Some(op.m) else if Offloads(op, key) then None else was
  }

  /** The message left in the cache at (key, ts) by a run that starts with `was`. */
  function LastCached(ops: seq<Op>, key: string, ts: Timestamp, was: Option<Message>): Option<Message>
    decreases |ops|
  {
    if ops == [] then was
    else LastCached(ops[1..], key, ts, CachedAfter(ops[0], key, ts, was))
  }

  lemma StepCached(s: Store, op: Op, key: string, ts: Timestamp)
    ensures Find(Step(s, op).Pending(key), ts) == CachedAfter(op, key, ts, Find(s.Pending(key), ts))
  {
    match op
    case CacheMessage(m, t) => FindPut(s.Pending(m.Key()), t, m, ts);
    case DeliveryFailed(m, t, user) => FindPut(s.Pending(m.Key()), t, m, ts);
    case OffloadPair(a, b) =>
      OffloadEmptiesDialogue(s, a, b);
      OffloadOf(s, a, b);
    case FillPool(user, tokens, replace) =>
  }

  /** What the cache holds after any run, without any condition on the messages. */
  lemma {:induction false} RunCached(s: Store, ops: seq<Op>, key: string, ts: Timestamp)
    ensures Find(Run(s, ops).Pending(key), ts) == LastCached(ops, key, ts, Find(s.Pending(key), ts))
    decreases |ops|
  {
    if ops != [] {
      hide Step, Find, CachedAfter;
      StepCached(s, ops[0], key, ts);
      RunCached(Step(s, ops[0]), ops[1..], key, ts);
    }
  }

  /** Every offload of the dialogue is followed by another version of the message. */
  predicate CachedAgain(ops: seq<Op>, key: string, ts: Timestamp) {
    forall i :: 0 <= i < |ops| && Offloads(ops[i], key) ==> exists j :: i < j < |ops| && Caches(ops[j], key, ts)
  }

  lemma {:induction false} StillCachedIff(ops: seq<Op>, key: string, ts: Timestamp, was: Option<Message>)
    ensures LastCached(ops, key, ts, was).Some? <==>
            CachedAgain(ops, key, ts)
            && (was.Some? || exists j :: 0 <= j < |ops| && Caches(ops[j], key, ts))
    decreases |ops|
  {
    if ops != [] {
      StillCachedIff(ops[1..], key, ts, CachedAfter(ops[0], key, ts, was));
      assert CachedAfter(ops[0], key, ts, was).Some? <==>
             Caches(ops[0], key, ts) || (!Offloads(ops[0], key) && was.Some?);
      hide Caches, Offloads, CachedAfter, CachedAgain;
      CachesShift(ops, key, ts);
      AgainShift(ops, key, ts);
      NotBoth(ops[0], key, ts);
    }
  }

  lemma NotBoth(op: Op, key: string, ts: Timestamp)
    ensures !(Caches(op, key, ts) && Offloads(op, key))
  {
  }

  lemma CachesShift(ops: seq<Op>, key: string, ts: Timestamp)
    requires ops != []
    ensures (exists j :: 0 <= j < |ops| && Caches(ops[j], key, ts)) <==>
            Caches(ops[0], key, ts) || exists j :: 0 <= j < |ops[1..]| && Caches(ops[1..][j], key, ts)
  {
    hide Caches;
    var rest := ops[1..];
    if j :| 0 <= j < |rest| && Caches(rest[j], key, ts) { assert ops[j + 1] == rest[j]; }
    if j :| 0 <= j < |ops| && Caches(ops[j], key, ts) {
      if j > 0 { assert rest[j - 1] == ops[j]; }
    }
  }

  lemma AgainShift(ops: seq<Op>, key: string, ts: Timestamp)
    requires ops != []
    ensures CachedAgain(ops, key, ts) <==>
            CachedAgain(ops[1..], key, ts)
            && (Offloads(ops[0], key) ==> exists j :: 0 <= j < |ops[1..]| && Caches(ops[1..][j], key, ts))
  {
    hide Caches, Offloads;
    var rest := ops[1..];
    assert forall j :: 0 <= j < |rest| ==> rest[j] == ops[j + 1];
    if CachedAgain(ops, key, ts) {
      forall i | 0 <= i < |rest| && Offloads(rest[i], key)
        ensures exists j :: i < j < |rest| && Caches(rest[j], key, ts)
      {
        assert Offloads(ops[i + 1], key);
        var j :| i + 1 < j < |ops| && Caches(ops[j], key, ts);
        assert rest[j - 1] == ops[j];
      }
      if Offloads(ops[0], key) {
        var j :| 0 < j < |ops| && Caches(ops[j], key, ts);
        assert rest[j - 1] == ops[j];
      }
    }
    if CachedAgain(rest, key, ts)
       && (Offloads(ops[0], key) ==> exists j :: 0 <= j < |rest| && Caches(rest[j], key, ts)) {
      forall i | 0 <= i < |ops| && Offloads(ops[i], key)
        ensures exists j :: i < j < |ops| && Caches(ops[j], key, ts)
      {
        if i > 0 { assert Offloads(rest[i - 1], key); }
        var j :| i - 1 < j < |rest| && Caches(rest[j], key, ts);
        assert ops[j + 1] == rest[j];
      }
    }
  }

  // --------------------------------------------------------------------
  // Which tokens are still in the pool
  // --------------------------------------------------------------------

  /** Whether one operation leaves a token in a user's pool. */
  predicate PooledAfter(op: Op, user: nat, token: string, was: bool) {
    match op
    case FillPool(u, tokens, replace) => if u == user then token in tokens || (!replace && was) else was
    case DeliveryFailed(m, ts, u) => was || (u == user && token == Token(m.Key(), ts))
    case _ => was
  }

  predicate Pooled(ops: seq<Op>, user: nat, token: string, was: bool)
    decreases |ops|
  {
    if ops == [] then was else Pooled(ops[1..], user, token, PooledAfter(ops[0], user, token, was))
  }

  lemma StepPooled(s: Store, op: Op, user: nat, token: string)
    ensures token in Step(s, op).Pool(user) <==> PooledAfter(op, user, token, token in s.Pool(user))
  {
    hide Token, Offload;
    match op
    case CacheMessage(m, ts) =>
    case DeliveryFailed(m, ts, u) => PoolMembers(CacheDialogue(s, m, ts), u, [Token(m.Key(), ts)], false, user, token);
    case OffloadPair(a, b) =>
      OffloadOf(s, a, b);
    case FillPool(u, tokens, replace) => PoolMembers(s, u, tokens, replace, user, token);
  }

  lemma PoolMembers(s: Store, u: nat, tokens: seq<string>, replace: bool, user: nat, token: string)
    ensures token in AddTokens(s, u, tokens, replace).Pool(user) <==>
            if u == user then token in tokens || (!replace && token in s.Pool(user)) else token in s.Pool(user)
  {
    PoolAfterAdding(s, u, tokens, replace, user);
    var pool := AddTokens(s, u, tokens, replace).Pool(u);
    assert token in pool <==> token in Elements(pool);
    assert token in s.Pool(u) <==> token in Elements(s.Pool(u));
    assert token in tokens <==> token in Elements(tokens);
  }

  /** The pool after any run: what was added since the last replacement. */
  lemma {:induction false} RunPooled(s: Store, ops: seq<Op>, user: nat, token: string)
    ensures token in Run(s, ops).Pool(user) <==> Pooled(ops, user, token, token in s.Pool(user))
    decreases |ops|
  {
    if ops != [] {
      hide Step, PooledAfter, AddTokens;
      StepPooled(s, ops[0], user, token);
      RunPooled(Step(s, ops[0]), ops[1..], user, token);
    }
  }

  // --------------------------------------------------------------------
  // The dispatcher
  // --------------------------------------------------------------------

  /** Dialogue keys and messages the dispatcher collects; None is an index error. */
  function Collected(s: Store, tokens: seq<string>): Option<(seq<string>, seq<Message>)> {
    if tokens == [] then Some(([], []))
    else match (ParseToken(tokens[0]), Collected(s, tokens[1..]))
      case (Some((key, ts)), Some((keys, messages))) =>
        Some(([key] + keys, (match Find(s.Pending(key), ts) case None => [] case Some(m) => [m]) + messages))
      case _ => None
  }

  lemma ParsesIff(token: string)
    ensures ParseToken(token).Some? <==> ':' in token
  {
    var i := IndexOf(token, ':');
    if ':' in token {
      assert token[..|token|] == token;
    }
  }

  /** One token without a colon stops the whole dispatch. */
  lemma {:induction false} CollectedIff(s: Store, tokens: seq<string>)
    ensures Collected(s, tokens).Some? <==> forall token :: token in tokens ==> ':' in token
  {
    hide ParseToken;
    if tokens != [] {
      ParsesIff(tokens[0]);
      CollectedIff(s, tokens[1..]);
      assert forall token :: token in tokens <==> token == tokens[0] || token in tokens[1..];
    }
  }

  /** What a list of tokens contributes to the messages sent. */
  function Sends(s: Store, tokens: seq<string>): seq<Message> {
    if tokens == [] then []
    else (match Sent(s, tokens[0]) case None => [] case Some(m) => [m]) + Sends(s, tokens[1..])
  }

  lemma {:induction false} CollectedSends(s: Store, tokens: seq<string>)
    requires Collected(s, tokens).Some?
    ensures Collected(s, tokens).value.1 == Sends(s, tokens)
  {
    if tokens != [] { CollectedSends(s, tokens[1..]); }
  }

  lemma {:induction false} SendsMembers(s: Store, tokens: seq<string>, m: Message)
    ensures m in Sends(s, tokens) <==> exists token :: token in tokens && Sent(s, token) == Some(m)
  {
    hide Sent;
    if tokens != [] {
      SendsMembers(s, tokens[1..], m);
      assert forall token :: token in tokens <==> token == tokens[0] || token in tokens[1..];
    }
  }

  lemma {:induction false} CollectedKeys(s: Store, tokens: seq<string>)
    requires Collected(s, tokens).Some?
    ensures var keys := Collected(s, tokens).value.0;
            |keys| == |tokens| &&
            forall i :: 0 <= i < |keys| ==> ParseToken(tokens[i]).Some? && keys[i] == ParseToken(tokens[i]).value.0
  {
    hide ParseToken, Find;
    if tokens != [] {
      CollectedKeys(s, tokens[1..]);
      assert forall i :: 0 < i < |tokens| ==> tokens[i] == tokens[1..][i - 1];
    }
  }

  /** When every token parses, exactly the cached messages are sent, and the entries of
      the tokens' dialogues are read in token order. */
  lemma CollectedMeaning(s: Store, tokens: seq<string>)
    requires forall token :: token in tokens ==> ':' in token
    ensures Collected(s, tokens).Some?
    ensures
      var (keys, messages) := Collected(s, tokens).value;
      && |keys| == |tokens|
      && (forall i :: 0 <= i < |keys| ==> ParseToken(tokens[i]).Some? && keys[i] == ParseToken(tokens[i]).value.0)
      && forall m :: m in messages <==> exists token :: token in tokens && Sent(s, token) == Some(m)
  {
    hide Collected, Sends, ParseToken, Sent;
    CollectedIff(s, tokens);
    CollectedKeys(s, tokens);
    CollectedSends(s, tokens);
    forall m { SendsMembers(s, tokens, m); }
  }

  lemma {:induction false} SendsAppend(s: Store, x: seq<string>, y: seq<string>)
    ensures Sends(s, x + y) == Sends(s, x) + Sends(s, y)
  {
    hide Sent;
    if x == [] {
      assert x + y == y;
    } else {
      assert (x + y)[1..] == x[1..] + y;
      SendsAppend(s, x[1..], y);
    }
  }

  /** The dispatch for `user` goes through, and `m` is what it sends for `token`: it
      stands between what the tokens before and after it contribute. */
  predicate Dispatches(s: Store, user: nat, token: string, m: Message) {
    var pool := s.Pool(user);
    && Collected(s, pool).Some?
    && exists i :: 0 <= i < |pool| && pool[i] == token
         && Collected(s, pool).value.1 == Sends(s, pool[..i]) + [m] + Sends(s, pool[i + 1..])
  }

  lemma SendsSplit(s: Store, pool: seq<string>, i: nat)
    requires i < |pool|
    ensures Sends(s, pool) ==
            Sends(s, pool[..i]) + (match Sent(s, pool[i]) case None => [] case Some(m) => [m]) + Sends(s, pool[i + 1..])
  {
    hide Sent;
    assert pool == pool[..i] + pool[i..] && pool[i..][1..] == pool[i + 1..];
    SendsAppend(s, pool[..i], pool[i..]);
  }

  /** In any state: the token is pooled, no pooled token is malformed, and the
      message is cached. */
  lemma DispatchesIff(s: Store, user: nat, token: string, m: Message)
    ensures Dispatches(s, user, token, m) <==>
            && (forall other :: other in s.Pool(user) ==> ':' in other)
            && token in s.Pool(user) && Sent(s, token) == Some(m)
  {
    hide Sent, Sends, Collected;
    var pool := s.Pool(user);
    CollectedIff(s, pool);
    if Collected(s, pool).Some? {
      CollectedSends(s, pool);
      forall i | 0 <= i < |pool| && pool[i] == token
        ensures Collected(s, pool).value.1 == Sends(s, pool[..i]) + [m] + Sends(s, pool[i + 1..])
                <==> Sent(s, token) == Some(m)
      {
        SendsSplit(s, pool, i);
        Between(Sends(s, pool[..i]), match Sent(s, token) case None => [] case Some(x) => [x], [m],
                Sends(s, pool[i + 1..]));
      }
    }
  }

  lemma Between<T>(x: seq<T>, y: seq<T>, z: seq<T>, w: seq<T>)
    ensures x + y + w == x + z + w <==> y == z
  {
    if x + y + w == x + z + w {
      assert |y| == |z|;
      forall i | 0 <= i < |y| ensures y[i] == z[i] {
        assert (x + y + w)[|x| + i] == y[i] && (x + z + w)[|x| + i] == z[i];
      }
    }
  }

  /** At any later point of any run the dispatcher sends a message for the token of an
      undelivered one exactly when the user's pool has not been replaced without it, no
      token without a colon is pooled, and every offload of the dialogue was followed
      by a newly cached version; it then sends the version cached last. */
  lemma {:induction false} TokenIsSentIff(s: Store, m: Message, ts: Timestamp, user: nat, later: seq<Op>)
    requires ':' !in ts
    ensures
      var first, token := Undelivered(s, m, ts, user), Token(m.Key(), ts);
      var after := Run(first, later);
      && ((exists v :: Dispatches(after, user, token, v)) <==>
            && (forall other :: Pooled(later, user, other, other in first.Pool(user)) ==> ':' in other)
            && Pooled(later, user, token, true)
            && CachedAgain(later, m.Key(), ts))
      && (forall v :: Dispatches(after, user, token, v) ==> LastCached(later, m.Key(), ts, Some(m)) == Some(v))
  {
    hide Token, ParseToken, DialogueKey, Run, LastCached, CachedAgain, Pooled, Dispatches;
    var first, token := Undelivered(s, m, ts, user), Token(m.Key(), ts);
    var after := Run(first, later);
    TokenRoundTripIff(m.sender, m.recipient, ts);
    StepCached(s, DeliveryFailed(m, ts, user), m.Key(), ts);
    RunCached(first, later, m.Key(), ts);
    StillCachedIff(later, m.Key(), ts, Some(m));
    assert Sent(after, token) == LastCached(later, m.Key(), ts, Some(m));
    StepPooled(s, DeliveryFailed(m, ts, user), user, token);
    forall other ensures other in after.Pool(user) <==> Pooled(later, user, other, other in first.Pool(user)) {
      RunPooled(first, later, user, other);
    }
    forall v ensures Dispatches(after, user, token, v) <==>
                     && (forall other :: other in after.Pool(user) ==> ':' in other)
                     && token in after.Pool(user) && Sent(after, token) == Some(v) {
      DispatchesIff(after, user, token, v);
    }
    var last := LastCached(later, m.Key(), ts, Some(m));
    assert last.Some? ==> Sent(after, token) == Some(last.value);
  }

  /** The pool was replaced: nothing is sent, though the message is still cached. */
  lemma ReplacedPoolSendsNothing(s: Store, m: Message, ts: Timestamp, user: nat)
    requires ':' !in ts
    ensures
      var after := Run(Undelivered(s, m, ts, user), [FillPool(user, [], true)]);
      && Sent(after, Token(m.Key(), ts)) == Some(m)
      && Collected(after, after.Pool(user)) == Some(([], []))
  {
    hide Token, ParseToken, DialogueKey;
    TokenRoundTripIff(m.sender, m.recipient, ts);
    var ops := [FillPool(user, [], true)];
    assert ops[1..] == [];
    StepCached(s, DeliveryFailed(m, ts, user), m.Key(), ts);
    RunCached(Undelivered(s, m, ts, user), ops, m.Key(), ts);
    assert !Caches(ops[0], m.Key(), ts) && !Offloads(ops[0], m.Key());
    assert LastCached(ops, m.Key(), ts, Some(m)) == LastCached([], m.Key(), ts, Some(m));
  }

  /** A token without a colon in the pool raises, and nothing at all is sent. */
  lemma MalformedTokenStopsDispatch(s: Store, m: Message, ts: Timestamp, user: nat)
    ensures
      var after := Run(Undelivered(s, m, ts, user), [FillPool(user, ["x"], false)]);
      Collected(after, after.Pool(user)) == None
  {
    hide Token, DialogueKey, Collected;
    var first := Undelivered(s, m, ts, user);
    var ops := [FillPool(user, ["x"], false)];
    var after := Run(first, ops);
    assert ops[1..] == [];
    StepPooled(first, ops[0], user, "x");
    assert Run(Step(first, ops[0]), ops[1..]) == Step(first, ops[0]);
    assert after == Step(first, ops[0]) && "x"[0] != ':';
    assert ops[0] == FillPool(user, ["x"], false) && "x" in ["x"];
    assert "x" in after.Pool(user) && ':' !in "x";
    CollectedIff(after, after.Pool(user));
  }

  /** The dispatcher sends the message of a pending token only while it is cached:
      once the dialogue is offloaded the token still resolves, in the database,
      and yet nothing is sent for it. */
  lemma {:induction false} OffloadedTokenIsNotSent(s: Store, m: Message, ts: Timestamp)
    requires Valid(s) && ':' !in ts && Sent(s, Token(m.Key(), ts)).Some?
    ensures Offload(s, m.Key()).Some?
    ensures
      var t := Offload(s, m.Key()).value;
      Resolves(t, Token(m.Key(), ts)) && Sent(t, Token(m.Key(), ts)) == None
  {
    hide Valid, View, Offload, Token, ParseToken, DialogueKey;
    TokenRoundTripIff(m.sender, m.recipient, ts);
    CachedIsVisible(s, m.Key(), ts);
    OffloadView(s, m.sender, m.recipient, m.Key(), ts);
    OffloadEmptiesDialogue(s, m.sender, m.recipient);
  }
}
