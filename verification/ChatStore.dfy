/**
 The write-behind chat cache: messages cached by dialogue and timestamp, moved to
 the database by an offload, and pointed to by tokens in the users' pending pools
 (app/controllers/chat/utils/store.py, offload_chat_data.py).
 */
module ChatStore {
  import opened Prelude
  import opened ChatKeys

  type Timestamp = string

  /** The part of a message an update can change. */
  datatype Content = Content(text: string, status: string, kind: string)

  datatype Message = Message(id: Option<nat>, sender: nat, recipient: nat, content: Content) {
    /** `item.get("id")`, where 0 counts as missing. */
    predicate HasId() {
      id.Some? && id.value != 0
    }

    function Key(): string {
      DialogueKey(sender, recipient)
    }
  }

  /** A cached dialogue: timestamps in insertion order, each once. */
  datatype Cached = Cached(ts: Timestamp, message: Message)

  datatype Row = Row(id: nat, thread: nat, sender: nat, recipient: nat, ts: Timestamp, content: Content) {
    function Key(): string {
      DialogueKey(sender, recipient)
    }
  }

  datatype Thread = Thread(id: nat, participants: set<nat>)

  /** `cache` holds the `messages` field of each dialogue; an absent field is []. */
  datatype Store = Store(cache: map<string, seq<Cached>>, rows: seq<Row>, threads: seq<Thread>, next: nat,
                         pools: map<nat, seq<string>>)
  {
    function Pending(key: string): seq<Cached> {
      if key in cache then cache[key] else []
    }

    function Pool(user: nat): seq<string> {
      if user in pools then pools[user] else []
    }
  }

  const EMPTY := Store(map[], [], [], 1, map[])

  function Find(messages: seq<Cached>, ts: Timestamp): Option<Message> {
    if messages == [] then None
    else if messages[0].ts == ts then Some(messages[0].message)
    else Find(messages[1..], ts)
  }

  /** Assignment into the dictionary of a dialogue. */
  function Put(messages: seq<Cached>, ts: Timestamp, m: Message): seq<Cached> {
    if messages == [] then [Cached(ts, m)]
    else if messages[0].ts == ts then [Cached(ts, m)] + messages[1..]
    else [messages[0]] + Put(messages[1..], ts, m)
  }

  // --------------------------------------------------------------------
  // Operations
  // --------------------------------------------------------------------

  function CacheDialogue(s: Store, m: Message, ts: Timestamp): Store {
    s.(cache := s.cache[m.Key() := Put(s.Pending(m.Key()), ts, m)])
  }

  /** The first thread with both participants. */
  function FindThread(threads: seq<Thread>, a: nat, b: nat): Option<Thread> {
    if threads == [] then None
    else if a in threads[0].participants && b in threads[0].participants then Some(threads[0])
    else FindThread(threads[1..], a, b)
  }

  function GetOrCreateThread(s: Store, a: nat, b: nat): (Store, nat) {
    match FindThread(s.threads, a, b)
    case Some(t) => (s, t.id)
    case None => (s.(threads := s.threads + [Thread(s.next, {a, b})], next := s.next + 1), s.next)
  }

  /** `UPDATE messages SET ... WHERE id = ...` */
  function UpdateRow(rows: seq<Row>, id: nat, c: Content): seq<Row> {
    if rows == [] then []
    else [if rows[0].id == id then rows[0].(content := c) else rows[0]] + UpdateRow(rows[1..], id, c)
  }

  function UpdateAll(rows: seq<Row>, messages: seq<Cached>): seq<Row>
    decreases |messages|
  {
    if messages == [] then rows
    else
      var m := messages[0].message;
      UpdateAll(if m.HasId() then UpdateRow(rows, m.id.value, m.content) else rows, messages[1..])
  }

  /** Rows for the messages without id, numbered from `next`. */
  function NewRows(messages: seq<Cached>, thread: nat, next: nat): seq<Row> {
    if messages == [] then []
    else
      var Cached(ts, m) := messages[0];
      if m.HasId() then NewRows(messages[1..], thread, next)
      else [Row(next, thread, m.sender, m.recipient, ts, m.content)] + NewRows(messages[1..], thread, next + 1)
  }

  /** A successful offload of one dialogue; None when its key does not parse. */
  function Offload(s: Store, dialogue: string): Option<Store> {
    match ParseKey(dialogue)
    case None => None
    case Some((low, high)) =>
      var key := KeyText(low, high);    // the ids in the order given
      var messages := s.Pending(key);
      if messages == [] then Some(s)
      else
        var (s1, thread) := GetOrCreateThread(s.(cache := s.cache - {key}), low, high);
        var added := NewRows(messages, thread, s1.next);
        Some(s1.(rows := UpdateAll(s1.rows, messages) + added, next := s1.next + |added|))
  }

  /** `set(...)` turned back into a list: some duplicate-free list of the tokens. */
  function AsList(kept: seq<string>, tokens: seq<string>): seq<string>
    decreases |tokens|
  {
    if tokens == [] then kept
    else AsList(if tokens[0] in kept then kept else kept + [tokens[0]], tokens[1..])
  }

  function AddTokens(s: Store, user: nat, tokens: seq<string>, replace: bool): Store {
    s.(pools := s.pools[user := AsList([], (if replace then [] else s.Pool(user)) + tokens)])
  }

  /** A message that could not be delivered: cache it and leave a token for `user`. */
  function Undelivered(s: Store, m: Message, ts: Timestamp, user: nat): Store {
    AddTokens(CacheDialogue(s, m, ts), user, [Token(m.Key(), ts)], false)
  }

  // --------------------------------------------------------------------
  // The view
  // --------------------------------------------------------------------

  /** The last row stored for a timestamp of a dialogue. */
  function LatestRow(rows: seq<Row>, key: string, ts: Timestamp): Option<Row> {
    if rows == [] then None
    else
      var r := rows[|rows| - 1];
      if r.Key() == key && r.ts == ts then Some(r) else LatestRow(rows[..|rows| - 1], key, ts)
  }

  /** What a reader of cache and database together sees. */
  function View(s: Store, key: string, ts: Timestamp): Option<Content> {
    match Find(s.Pending(key), ts)
    case Some(m) => Some(m.content)
    case None => match LatestRow(s.rows, key, ts) case Some(r) => Some(r.content) case None => None
  }

  /** A message is new, or its id names the latest row of its timestamp. */
  predicate NamesLatest(s: Store, m: Message, ts: Timestamp) {
    !m.HasId() || (LatestRow(s.rows, m.Key(), ts).Some? && LatestRow(s.rows, m.Key(), ts).value.id == m.id.value)
  }

  ghost predicate Valid(s: Store) {
    && (forall i, j :: 0 <= i < j < |s.rows| ==> s.rows[i].id != s.rows[j].id)
    && (forall r :: r in s.rows ==> r.id < s.next)
    && (forall i, j :: 0 <= i < j < |s.threads| ==> s.threads[i].participants != s.threads[j].participants)
    && (forall k :: k in s.cache ==> WellCached(s, k))
  }

  /** A cached dialogue lists each timestamp once, only messages of that dialogue,
      and every id names the latest row of its timestamp. */
  ghost predicate WellCached(s: Store, key: string) {
    var ms := s.Pending(key);
    && (forall i, j :: 0 <= i < j < |ms| ==> ms[i].ts != ms[j].ts)
    && (forall c :: c in ms ==> c.message.Key() == key && NamesLatest(s, c.message, c.ts))
  }
}
