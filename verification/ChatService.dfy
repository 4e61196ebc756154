/**
 The chat helpers as they run, on a store updated in place.
 */
module ChatService {
  import opened Prelude
  import opened ChatKeys
  import opened ChatStore
  import opened ChatProofs
  import opened ChatDispatch

  class ChatServer {
    var store: Store

    constructor ()
      ensures store == EMPTY
    {
      store := EMPTY;
    }

    /** The message is found under its dialogue and timestamp from now on, in place
        of an earlier version; every other cached message, the database and the
        pools stay. */
    method CacheMessage(m: Message, ts: Timestamp)
      modifies this
      ensures store == CacheDialogue(old(store), m, ts)
      ensures forall k, t :: Find(store.Pending(k), t) ==
                if k == m.Key() && t == ts then Some(m) else Find(old(store).Pending(k), t)
      ensures store.rows == old(store).rows && store.threads == old(store).threads && store.pools == old(store).pools
    {
      forall k, t ensures Find(CacheDialogue(store, m, ts).Pending(k), t) ==
                          if k == m.Key() && t == ts then Some(m) else Find(store.Pending(k), t) {
        FindPut(store.Pending(m.Key()), ts, m, t);
      }
      var loaded := store.Pending(m.Key());
      loaded := Put(loaded, ts, m);
      store := store.(cache := store.cache[m.Key() := loaded]);
    }

    method GetOrCreateThreadId(low: nat, high: nat) returns (id: nat)
      modifies this
      ensures (store, id) == GetOrCreateThread(old(store), low, high)
    {
      var thread := FindThread(store.threads, low, high);
      if thread.None? {
        id := store.next;
        store := store.(threads := store.threads + [Thread(id, {low, high})], next := id + 1);
      } else {
        id := thread.value.id;
      }
    }

    static lemma UpdateAllStep(rows: seq<Row>, cached: seq<Cached>, i: nat)
      requires i < |cached|
      ensures
        var m := cached[i].message;
        UpdateAll(rows, cached[i..]) ==
          UpdateAll(if m.HasId() then UpdateRow(rows, m.id.value, m.content) else rows, cached[i + 1..])
    {
      assert cached[i..][1..] == cached[i + 1..];
    }

    static lemma NewRowsStep(cached: seq<Cached>, i: nat, thread: nat, next: nat)
      requires i < |cached|
      ensures
        var Cached(ts, m) := cached[i];
        NewRows(cached[i..], thread, next) ==
          if m.HasId() then NewRows(cached[i + 1..], thread, next)
          else [Row(next, thread, m.sender, m.recipient, ts, m.content)] + NewRows(cached[i + 1..], thread, next + 1)
    {
      assert cached[i..][1..] == cached[i + 1..];
    }

    static lemma NothingLeft(rows: seq<Row>, cached: seq<Cached>, thread: nat, next: nat)
      ensures UpdateAll(rows, cached[|cached|..]) == rows && NewRows(cached[|cached|..], thread, next) == []
    {
      assert cached[|cached|..] == [];
    }

    static lemma OffloadBody(s: Store, dialogue: string, low: nat, high: nat, s1: Store, thread: nat)
      requires ParseKey(dialogue) == Some((low, high)) && s.Pending(KeyText(low, high)) != []
      requires (s1, thread) == GetOrCreateThread(s.(cache := s.cache - {KeyText(low, high)}), low, high)
      ensures
        var messages := s.Pending(KeyText(low, high));
        var added := NewRows(messages, thread, s1.next);
        Offload(s, dialogue) ==
          Some(s1.(rows := UpdateAll(s1.rows, messages) + added, next := s1.next + |added|))
    {
    }

    /** Move one dialogue to the database; false when the key does not parse. */
    method OffloadDialogue(dialogue: string) returns (ok: bool)
      modifies this
      ensures match Offload(old(store), dialogue)
              case None => !ok && store == old(store)
              case Some(s) => ok && store == s
    {
      hide ParseKey, KeyText, FindThread, UpdateAll, NewRows;
      var ids := ParseKey(dialogue);
      if ids.None? {
        return false;
      }
      ok := true;
      var (low, high) := ids.value;
      var key := KeyText(low, high);
      var cached := store.Pending(key);
      if cached == [] {
        return;
      }
      store := store.(cache := store.cache - {key});
      var threadId := GetOrCreateThreadId(low, high);
      ghost var s1, rows0 := store, store.rows;
      var rows, newMessages, next := store.rows, [], store.next;
      assert cached[0..] == cached;
      for i := 0 to |cached|
        invariant UpdateAll(rows, cached[i..]) == UpdateAll(rows0, cached)
        invariant newMessages + NewRows(cached[i..], threadId, next) == NewRows(cached, threadId, store.next)
        invariant next == store.next + |newMessages| && store == s1
      {
        UpdateAllStep(rows, cached, i);
        NewRowsStep(cached, i, threadId, next);
        var Cached(ts, item) := cached[i];
        if !item.HasId() {
          newMessages := newMessages + [Row(next, threadId, item.sender, item.recipient, ts, item.content)];
          next := next + 1;
        } else {
          rows := UpdateRow(rows, item.id.value, item.content);
        }
      }
      NothingLeft(rows, cached, threadId, next);
      assert newMessages + [] == newMessages;
      OffloadBody(old(store), dialogue, low, high, store, threadId);
      store := store.(rows := rows + newMessages, next := next);
    }

    method AddPendingTokens(user: nat, tokens: seq<string>, replace: bool)
      modifies this
      ensures store == AddTokens(old(store), user, tokens, replace)
    {
      var loaded := store.Pool(user);
      if replace {
        loaded := tokens;
      } else {
        loaded := loaded + tokens;
      }
      assert [] + tokens == tokens;
      store := store.(pools := store.pools[user := AsList([], loaded)]);
    }

    method HandleChatException(m: Message, ts: Timestamp, user: nat)
      modifies this
      ensures store == Undelivered(old(store), m, ts, user)
    {
      CacheMessage(m, ts);
      AddPendingTokens(user, [Token(m.Key(), ts)], false);
    }

    /** The loop over a user's pending tokens. */
    method CollectPending(user: nat) returns (found: Option<(seq<string>, seq<Message>)>)
      ensures found == Collected(store, store.Pool(user))
    {
      hide ParseToken, Find;
      var tokens := store.Pool(user);
      var dialogueKeys: seq<string>, messages: seq<Message> := [], [];
      ghost var all := Collected(store, tokens);
      assert tokens[0..] == tokens;
      assert all.Some? ==> [] + all.value.0 == all.value.0 && [] + all.value.1 == all.value.1;
      for i := 0 to |tokens|
        invariant match Collected(store, tokens[i..])
                  case None => all == None
                  case Some((k, m)) => all == Some((dialogueKeys + k, messages + m))
      {
        assert tokens[i..][0] == tokens[i] && tokens[i..][1..] == tokens[i + 1..];
        var parts := ParseToken(tokens[i]);
        if parts.None? {
          return None;
        }
        var (key, ts) := parts.value;
        ghost var rest := Collected(store, tokens[i + 1..]);
        ghost var keys0, messages0 := dialogueKeys, messages;
        dialogueKeys := dialogueKeys + [key];
        var cached := Find(store.Pending(key), ts);
        if cached.Some? {
          messages := messages + [cached.value];
        }
        assert rest.Some? ==>
          && keys0 + ([key] + rest.value.0) == dialogueKeys + rest.value.0
          && messages0 + ((match cached case None => [] case Some(m) => [m]) + rest.value.1) == messages + rest.value.1;
      }
      assert tokens[|tokens|..] == [];
      assert dialogueKeys + [] == dialogueKeys && messages + [] == messages;
      found := Some((dialogueKeys, messages));
    }
  }
}
