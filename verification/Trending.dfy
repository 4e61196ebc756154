/**
 Recent searches and the trending set
 (app/controllers/search/search_string_processor.py, `process_search_entries`,
 and the late expiry handler in app/controllers/activity/auto_category_util_methods.py).
 */
module Trending {
  import opened Prelude
  import opened Strings

  type AssetId = int

  datatype Tag = Category | NoTag | Other

  /** Which assets the database returns for a token, per kind of query. */
  datatype Index = Index(byCategory: map<string, seq<AssetId>>,
                         byTitle: map<string, seq<AssetId>>, byTag: map<string, seq<AssetId>>)

  function At(m: map<string, seq<AssetId>>, token: string): seq<AssetId> {
    if token in m then m[token] else []
  }

  /** `list({asset.id: asset for asset in xs}.values())` */
  function Dedup(xs: seq<AssetId>): seq<AssetId> {
    DedupFrom([], xs)
  }

  function DedupFrom(kept: seq<AssetId>, xs: seq<AssetId>): seq<AssetId>
    decreases |xs|
  {
    if xs == [] then kept
    else DedupFrom(if xs[0] in kept then kept else kept + [xs[0]], xs[1..])
  }

  function Query(db: Index, token: string, tag: Tag): seq<AssetId> {
    match tag
    case Category => At(db.byCategory, token)
    case NoTag => Dedup(At(db.byTitle, token) + At(db.byTag, token))
    case Other => []
  }

  /** `recent` are the cached results by token; `pending` the unhandled expiry
      events of the keys `recent_<token>`. */
  datatype Store = Store(recent: map<string, seq<AssetId>>, trending: map<string, nat>,
                         searched: set<string>, pending: multiset<string>)

  const EMPTY := Store(map[], map[], {}, multiset{})

  /** `token, tag = entry.split(":")`, which needs exactly two parts. */
  function Split(entry: string): Option<(string, string)> {
    var parts := SplitOn(entry, ':');
    if |parts| == 2 then Some((parts[0], parts[1])) else None
  }

  function TagOf(s: string): Tag {
    if s == "category" then Category else if s == "none" then NoTag else Other
  }

  /** Results of one entry, served from the cache when the token has an entry. */
  function Answer(s: Store, db: Index, token: string, tag: Tag): seq<AssetId> {
    if token in s.recent then s.recent[token] else Query(db, token, tag)
  }

  function Search(s: Store, db: Index, token: string, tag: Tag): Store {
    if token in s.recent then
      s.(trending := s.trending[token := 1 + if token in s.trending then s.trending[token] else 0])
    else
      var found := Query(db, token, tag);
      s.(recent := if found == [] then s.recent else s.recent[token := found],
         searched := s.searched + {token})
  }

  datatype Op =
    | Lookup(db: Index, token: string, tag: Tag)
    | Expire(token: string)
    | Handle(token: string)

  function Step(s: Store, op: Op): Store {
    match op
    case Lookup(db, token, tag) => Search(s, db, token, tag)
    case Expire(token) =>
      if token in s.recent then s.(recent := s.recent - {token}, pending := s.pending + multiset{token}) else s
    case Handle(token) =>
      s.(trending := s.trending - {token}, pending := s.pending - multiset{token})
  }

  function Run(s: Store, ops: seq<Op>): Store
    decreases |ops|
  {
    if ops == [] then s else Run(Step(s, ops[0]), ops[1..])
  }

  // --------------------------------------------------------------------
  // Trending tokens
  // --------------------------------------------------------------------

  /** Every trending token is cached or has an expiry event still to be handled. */
  ghost predicate Backed(s: Store) {
    forall t :: t in s.trending ==> t in s.recent || t in s.pending
  }

  lemma {:induction false} RunKeepsBacked(s: Store, ops: seq<Op>)
    requires Backed(s)
    ensures Backed(Run(s, ops))
    decreases |ops|
  {
    if ops != [] {
      StepKeepsBacked(s, ops[0]);
      hide Step, Backed;
      RunKeepsBacked(Step(s, ops[0]), ops[1..]);
    }
  }

  lemma StepKeepsBacked(s: Store, op: Op)
    requires Backed(s)
    ensures Backed(Step(s, op))
  {
    hide Query;
  }

  /** This holds in every reachable state, also when an entry is cached again
      before the event of its previous expiry is handled. */
  lemma TrendingIsBacked(ops: seq<Op>)
    ensures Backed(Run(EMPTY, ops))
  {
    RunKeepsBacked(EMPTY, ops);
  }

  function ScoreOf(s: Store, token: string): nat {
    if token in s.trending then s.trending[token] else 0
  }

  /** Searches of `token` answered from the cache since its last handled expiry,
      starting from a count of `hits`. */
  function Hits(s: Store, ops: seq<Op>, token: string, hits: nat): nat
    decreases |ops|
  {
    if ops == [] then hits else Hits(Step(s, ops[0]), ops[1..], token, HitsAfter(s, ops[0], token, hits))
  }

  function HitsAfter(s: Store, op: Op, token: string, hits: nat): nat {
    match op
    case Lookup(_, t, _) => if t == token && t in s.recent then hits + 1 else hits
    case Expire(_) => hits
    case Handle(t) => if t == token then 0 else hits
  }

  lemma ScoreStep(s: Store, op: Op, token: string)
    ensures ScoreOf(Step(s, op), token) == HitsAfter(s, op, token, ScoreOf(s, token))
  {
    hide Query;
  }

  /** The trending score of a token is the number of searches answered from the
      cache since the last expiry of its entry was handled; a miss adds nothing. */
  lemma {:induction false} ScoreCountsHits(s: Store, ops: seq<Op>, token: string)
    ensures ScoreOf(Run(s, ops), token) == Hits(s, ops, token, ScoreOf(s, token))
    decreases |ops|
  {
    hide Step, HitsAfter, ScoreOf;
    if ops != [] {
      ScoreStep(s, ops[0], token);
      ScoreCountsHits(Step(s, ops[0]), ops[1..], token);
    }
  }

  /** Some search of `token` in the run found no cached entry. */
  predicate Misses(s: Store, ops: seq<Op>, token: string)
    decreases |ops|
  {
    ops != [] &&
    ((ops[0].Lookup? && ops[0].token == token && token !in s.recent) || Misses(Step(s, ops[0]), ops[1..], token))
  }

  lemma SearchedStep(s: Store, op: Op, token: string)
    ensures token in Step(s, op).searched <==>
            token in s.searched || (op.Lookup? && op.token == token && token !in s.recent)
  {
    hide Query;
  }

  /** The recent searches are the tokens searched without a cached entry. */
  lemma {:induction false} SearchedInRun(s: Store, ops: seq<Op>, token: string)
    ensures token in Run(s, ops).searched <==> token in s.searched || Misses(s, ops, token)
    decreases |ops|
  {
    hide Step;
    if ops != [] {
      SearchedStep(s, ops[0], token);
      SearchedInRun(Step(s, ops[0]), ops[1..], token);
    }
  }

  // --------------------------------------------------------------------
  // Results
  // --------------------------------------------------------------------

  lemma {:induction false} DedupFromMeaning(kept: seq<AssetId>, xs: seq<AssetId>)
    requires NoDuplicates(kept)
    ensures
      var r := DedupFrom(kept, xs);
      NoDuplicates(r) && kept <= r && Elements(r) == Elements(kept) + Elements(xs)
    decreases |xs|
  {
    if xs != [] {
      var kept1 := if xs[0] in kept then kept else kept + [xs[0]];
      DedupFromMeaning(kept1, xs[1..]);
      assert Elements(kept1) == Elements(kept) + {xs[0]};
      assert Elements(xs) == {xs[0]} + Elements(xs[1..]);
    }
  }

  /** Where an asset is first listed. */
  function FirstAt(xs: seq<AssetId>, x: AssetId): nat {
    if xs == [] || xs[0] == x then 0 else 1 + FirstAt(xs[1..], x)
  }

  ghost predicate InOrder(r: seq<AssetId>, xs: seq<AssetId>) {
    forall i, j :: 0 <= i < j < |r| ==> FirstAt(xs, r[i]) < FirstAt(xs, r[j])
  }

  lemma {:induction false} FirstAtBounds(x: seq<AssetId>, a: AssetId, y: seq<AssetId>)
    ensures FirstAt(x + y, a) == if a in x then FirstAt(x, a) else |x| + FirstAt(y, a)
    ensures a in x ==> FirstAt(x, a) < |x|
  {
    if x == [] {
      assert x + y == y;
    } else {
      assert (x + y)[1..] == x[1..] + y;
      FirstAtBounds(x[1..], a, y);
    }
  }

  /** De-duplication keeps the first appearances in their order. */
  lemma {:induction false} DedupOrder(before: seq<AssetId>, kept: seq<AssetId>, xs: seq<AssetId>)
    requires Elements(kept) == Elements(before) && InOrder(kept, before + xs)
    ensures InOrder(DedupFrom(kept, xs), before + xs)
    decreases |xs|
  {
    if xs != [] {
      var x, rest := xs[0], xs[1..];
      assert before + xs == (before + [x]) + rest;
      assert Elements(before + [x]) == Elements(before) + {x};
      if x in kept {
        assert x in Elements(kept) && Elements(before + [x]) == Elements(before);
        DedupOrder(before + [x], kept, rest);
      } else {
        assert x !in before by { assert x !in Elements(kept); }
        assert Elements(kept + [x]) == Elements(kept) + {x};
        FirstAtBounds(before, x, xs);
        forall i | 0 <= i < |kept| ensures FirstAt(before + xs, kept[i]) < FirstAt(before + xs, x) {
          assert kept[i] in Elements(kept);
          FirstAtBounds(before, kept[i], xs);
        }
        DedupOrder(before + [x], kept + [x], rest);
      }
    }
  }

  /** What is stored for a token; nothing when there is no entry. */
  function Listed(m: map<string, seq<AssetId>>, token: string): seq<AssetId> {
    if token in m then m[token] else []
  }

  /** A category search returns what matches by category, a search under another tag
      nothing, and an untagged search each asset matching by title or by tag once, the
      title matches first and both in the order of the database. */
  lemma QueryMeaning(db: Index, token: string)
    ensures Query(db, token, Category) == Listed(db.byCategory, token)
    ensures Query(db, token, Other) == []
    ensures
      var r, found := Query(db, token, NoTag), Listed(db.byTitle, token) + Listed(db.byTag, token);
      NoDuplicates(r) && InOrder(r, found) && forall x :: x in r <==> x in found
  {
    var found := Listed(db.byTitle, token) + Listed(db.byTag, token);
    DedupFromMeaning([], found);
    DedupOrder([], [], found);
    assert [] + found == found;
    assert forall x :: x in Dedup(found) <==> x in Elements(Dedup(found));
    assert forall x :: x in found <==> x in Elements(found);
  }

  /** Cached results are those of the query for the tag assigned to the token. */
  ghost predicate Faithful(s: Store, db: Index, tags: map<string, Tag>) {
    forall t :: t in s.recent ==> t in tags && s.recent[t] == Query(db, t, tags[t])
  }

  /** While the database is fixed and every token is searched under one tag, the
      cache is transparent: each answer is what the query would return. */
  lemma {:induction false} CacheIsTransparent(s: Store, db: Index, tags: map<string, Tag>, ops: seq<Op>, token: string)
    requires Faithful(s, db, tags) && token in tags
    requires forall i :: 0 <= i < |ops| && ops[i].Lookup? ==>
               ops[i].db == db && ops[i].token in tags && ops[i].tag == tags[ops[i].token]
    ensures Answer(Run(s, ops), db, token, tags[token]) == Query(db, token, tags[token])
    decreases |ops|
  {
    if ops != [] {
      assert Faithful(Step(s, ops[0]), db, tags);
      CacheIsTransparent(Step(s, ops[0]), db, tags, ops[1..], token);
    }
  }

  /** The search that filled the live cache entry of a token: its tag, and the
      database as it was. */
  datatype Fill = Fill(db: Index, tag: Tag)

  function FillAfter(op: Op, token: string, was: Option<Fill>): Option<Fill> {
    match op
    case Lookup(db, t, tag) => if t == token && was.None? && Query(db, t, tag) != [] then Some(Fill(db, tag)) else was
    case Expire(t) => if t == token then None else was
    case Handle(_) => was
  }

  function Filler(ops: seq<Op>, token: string, was: Option<Fill>): Option<Fill>
    decreases |ops|
  {
    if ops == [] then was else Filler(ops[1..], token, FillAfter(ops[0], token, was))
  }

  /** The entry of a token is what its filler found, and is there only if it has one. */
  predicate FilledBy(s: Store, token: string, f: Option<Fill>) {
    match f
    case None => token !in s.recent
    case Some(x) => token in s.recent && s.recent[token] == Query(x.db, token, x.tag)
  }

  lemma {:induction false} RunFilledBy(s: Store, ops: seq<Op>, token: string, f: Option<Fill>)
    requires FilledBy(s, token, f)
    ensures FilledBy(Run(s, ops), token, Filler(ops, token, f))
    decreases |ops|
  {
    if ops != [] {
      assert FilledBy(Step(s, ops[0]), token, FillAfter(ops[0], token, f)) by {
        hide Query;
      }
      RunFilledBy(Step(s, ops[0]), ops[1..], token, FillAfter(ops[0], token, f));
    }
  }

  /** The cache key leaves the tag out and outlives the database: after any run a
      search is answered correctly exactly when no search filled a live entry of its
      token, or the one that did found what this search should find. */
  lemma {:induction false} OtherTagAnswerIff(ops: seq<Op>, db: Index, token: string, tag: Tag)
    ensures
      var f := Filler(ops, token, None);
      Answer(Run(EMPTY, ops), db, token, tag) == Query(db, token, tag) <==>
      f.None? || Query(f.value.db, token, f.value.tag) == Query(db, token, tag)
  {
    hide Query, Run, Filler;
    RunFilledBy(EMPTY, ops, token, None);
  }

  /** A title search after a category search of the same token is given the category. */
  lemma CategoryAnswersTitle(token: string, a: AssetId, b: AssetId)
    requires a != b
    ensures
      var db := Index(map[token := [a]], map[token := [b]], map[]);
      var ops := [Lookup(db, token, Other), Lookup(db, token, Category)];
      && Answer(Run(EMPTY, ops), db, token, NoTag) == [a]
      && Query(db, token, NoTag) == [b]
  {
    var db := Index(map[token := [a]], map[token := [b]], map[]);
    var first, second := Lookup(db, token, Other), Lookup(db, token, Category);
    var s1 := Step(EMPTY, first);
    var s2 := Step(s1, second);
    assert [first, second][1..] == [second] && [second][1..] == [];
    assert Run(EMPTY, [first, second]) == Run(s1, [second]) == Run(s2, []) == s2;
    assert s1.recent == map[] && token in s2.recent && s2.recent[token] == [a];
    assert At(db.byTitle, token) + At(db.byTag, token) == [b] && [b][1..] == [];
    assert DedupFrom([], [b]) == DedupFrom([] + [b], []) && [] + [b] == [b];
  }

  // --------------------------------------------------------------------
  // The handlers as they run
  // --------------------------------------------------------------------

  /** The state after the entries, and the results; None is a raised exception,
      which keeps the effect of the entries before the malformed one. */
  function Process(s: Store, db: Index, entries: seq<string>): (Store, Option<seq<AssetId>>)
    decreases |entries|
  {
    if entries == [] then (s, Some([]))
    else match Split(entries[0])
      case None => (s, None)
      case Some((token, tag)) =>
        var (t, rest) := Process(Search(s, db, token, TagOf(tag)), db, entries[1..]);
        (t, match rest case None => None case Some(r) => Some(Answer(s, db, token, TagOf(tag)) + r))
  }

  /** One search per entry before the first malformed one, in order. */
  function Lookups(db: Index, entries: seq<string>): seq<Op> {
    if entries == [] || Split(entries[0]).None? then []
    else
      var (token, tag) := Split(entries[0]).value;
      [Lookup(db, token, TagOf(tag))] + Lookups(db, entries[1..])
  }

  /** The answers a run of searches gives, one after the other. */
  function Answers(s: Store, ops: seq<Op>): seq<AssetId>
    decreases |ops|
  {
    if ops == [] then []
    else (match ops[0] case Lookup(db, token, tag) => Answer(s, db, token, tag) case _ => [])
         + Answers(Step(s, ops[0]), ops[1..])
  }

  /** The entry is the token and the tag with one colon between them. */
  predicate Names(entry: string, token: string, tag: string) {
    ':' !in token && ':' !in tag && entry == token + ":" + tag
  }

  /** An entry is read exactly when it has one colon, and gives back its two parts. */
  lemma SplitMeaning(entry: string)
    ensures forall token, tag :: Names(entry, token, tag) <==> Split(entry) == Some((token, tag))
  {
    forall token, tag | Names(entry, token, tag) ensures Split(entry) == Some((token, tag)) {
      SplitFirst(token, ':', tag);
      SplitWhole(tag, ':');
      assert entry == token + [':'] + tag;
    }
    if Split(entry).Some? {
      var i := IndexOf(entry, ':');
      var rest := entry[i + 1..];
      var j := IndexOf(rest, ':');
      assert |SplitOn(rest, ':')| == 1 && j == |rest|;
      assert rest[..j] == rest;
      assert entry == entry[..i] + ":" + rest && Names(entry, entry[..i], rest);
    }
  }

  /** The search of an entry: by category, untagged, or under a tag that finds nothing. */
  ghost predicate SearchesFor(op: Op, db: Index, entry: string) {
    && op.Lookup? && op.db == db
    && exists tag :: Names(entry, op.token, tag)
         && (op.tag == Category <==> tag == "category") && (op.tag == NoTag <==> tag == "none")
  }

  /** One search per entry up to the first entry that does not have exactly one colon. */
  lemma {:induction false} LookupsMeaning(db: Index, entries: seq<string>)
    ensures
      var ops := Lookups(db, entries);
      && |ops| <= |entries|
      && (forall i :: 0 <= i < |ops| ==> SearchesFor(ops[i], db, entries[i]))
      && (|ops| < |entries| ==> forall token, tag :: !Names(entries[|ops|], token, tag))
  {
    hide Split, SearchesFor, Names;
    if entries != [] {
      SplitMeaning(entries[0]);
      if Split(entries[0]).Some? {
        var ops := Lookups(db, entries);
        LookupsMeaning(db, entries[1..]);
        FirstSearch(db, entries[0]);
        forall i | 0 < i < |ops| ensures SearchesFor(ops[i], db, entries[i]) {
          assert ops[i] == Lookups(db, entries[1..])[i - 1] && entries[i] == entries[1..][i - 1];
        }
        assert |ops| < |entries| ==> entries[|ops|] == entries[1..][|ops| - 1];
      }
    }
  }

  lemma FirstSearch(db: Index, entry: string)
    requires Split(entry).Some?
    ensures SearchesFor(Lookup(db, Split(entry).value.0, TagOf(Split(entry).value.1)), db, entry)
  {
    hide Split, Names;
    SplitMeaning(entry);
    var (token, tag) := Split(entry).value;
    assert Names(entry, token, tag);
    TagsDiffer();
  }

  lemma TagsDiffer()
    ensures "category" != "none"
  {
    assert |"category"| == 8 && |"none"| == 4;
  }

  /** Processing a list of entries is the run of the searches before the first
      malformed entry; it raises exactly when there is one, and otherwise returns
      the answers of that run in order. So all of the above holds of it. */
  lemma {:induction false} ProcessIsRun(s: Store, db: Index, entries: seq<string>)
    ensures
      var ops := Lookups(db, entries);
      var (t, results) := Process(s, db, entries);
      && t == Run(s, ops)
      && results == if |ops| == |entries| then Some(Answers(s, ops)) else None
    decreases |entries|
  {
    hide Search, Answer, Split;
    if entries != [] && Split(entries[0]).Some? {
      var (token, tag) := Split(entries[0]).value;
      var op, rest := Lookup(db, token, TagOf(tag)), Lookups(db, entries[1..]);
      LookupsMeaning(db, entries[1..]);
      ProcessIsRun(Step(s, op), db, entries[1..]);
      assert Lookups(db, entries)[1..] == rest;
    }
  }

  class SearchCache {
    var store: Store

    constructor ()
      ensures store == EMPTY
    {
      store := EMPTY;
    }

    /** Cache hit or miss for one entry. */
    method SearchEntry(db: Index, token: string, tag: Tag) returns (found: seq<AssetId>)
      modifies this
      ensures store == Search(old(store), db, token, tag)
      ensures found == Answer(old(store), db, token, tag)
    {
      if token in store.recent {
        found := store.recent[token];
        var score := if token in store.trending then store.trending[token] else 0;
        store := store.(trending := store.trending[token := score + 1]);
      } else {
        found := Query(db, token, tag);
        if found != [] {
          store := store.(recent := store.recent[token := found]);
        }
        store := store.(searched := store.searched + {token});
      }
    }

    method ProcessSearchEntries(db: Index, entries: seq<string>) returns (results: Option<seq<AssetId>>)
      modifies this
      ensures (store, results) == Process(old(store), db, entries)
    {
      hide Search, Answer, Split;
      var found: seq<AssetId> := [];
      ghost var all := Process(store, db, entries).1;
      assert entries[0..] == entries && (all.Some? ==> found + all.value == all.value);
      for i := 0 to |entries|
        invariant Process(store, db, entries[i..]).0 == Process(old(store), db, entries).0
        invariant match Process(store, db, entries[i..]).1
                  case None => Process(old(store), db, entries).1 == None
                  case Some(rest) => Process(old(store), db, entries).1 == Some(found + rest)
      {
        assert entries[i..][0] == entries[i] && entries[i..][1..] == entries[i + 1..];
        var parts := Split(entries[i]);
        if parts.None? {
          return None;
        }
        ghost var rest := Process(Search(store, db, parts.value.0, TagOf(parts.value.1)), db, entries[i + 1..]).1;
        ghost var sofar := found;
        var more := SearchEntry(db, parts.value.0, TagOf(parts.value.1));
        found := found + more;
        assert rest.Some? ==> sofar + (more + rest.value) == found + rest.value;
      }
      assert entries[|entries|..] == [];
      assert found + [] == found;
      results := Some(found);
    }

    /** The token's score is gone and no other score changes; cached results stay, and
        a trending set backed by the cache stays backed. */
    method HandleRecentExpiry(token: string)
      requires token in store.pending
      modifies this
      ensures store == Step(old(store), Handle(token))
      ensures forall t :: ScoreOf(store, t) == if t == token then 0 else ScoreOf(old(store), t)
      ensures store.recent == old(store).recent && store.searched == old(store).searched
      ensures Backed(old(store)) ==> Backed(store)
    {
      store := store.(pending := store.pending - multiset{token});
      store := store.(trending := store.trending - {token});
    }
  }
}
