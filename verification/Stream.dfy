/**
 The property stream: preference queries, the ranked auto-category scan and the
 keyset-paginated database fallback, sharing one growing set of seen ids
 (app/controllers/assets/stream.py).
 */
module Stream {
  import opened Prelude

  const MAX_RESULTS_PER_STREAM := 15

  datatype Asset = Asset(id: int, created: int, verified: bool)

  datatype Ranked = Ranked(id: int, score: real)

  /** What a query filters on: `only` is the set of ids a text match admits. */
  datatype Cond = Cond(seen: set<int>, cursor: Option<int>, only: Option<set<int>>) {
    predicate Admits(a: Asset) {
      && a.verified && a.id !in seen
      && (cursor.Some? ==> a.created < cursor.value)
      && (only.Some? ==> a.id in only.value)
    }
  }

  /** Rows that a query returns before its limit. The table is listed newest
      first, the order every query asks for. */
  function Select(table: seq<Asset>, c: Cond): seq<Asset> {
    if table == [] then []
    else if c.Admits(table[0]) then [table[0]] + Select(table[1..], c)
    else Select(table[1..], c)
  }

  function Take<T>(s: seq<T>, n: nat): seq<T> {
    if |s| <= n then s else s[..n]
  }

  ghost predicate NewestFirst(table: seq<Asset>) {
    forall i, j :: 0 <= i < j < |table| ==> table[i].created >= table[j].created
  }

  ghost predicate DistinctTimes(table: seq<Asset>) {
    forall i, j :: 0 <= i < j < |table| ==> table[i].created != table[j].created
  }

  ghost predicate DistinctIds(table: seq<Asset>) {
    forall i, j :: 0 <= i < j < |table| ==> table[i].id != table[j].id
  }

  function Ids(rows: seq<Asset>): set<int> {
    set a | a in rows :: a.id
  }

  /** `rows[-1].created_at if rows else cursor` */
  function NextCursor(rows: seq<Asset>, cursor: Option<int>): Option<int> {
    if rows == [] then cursor else Some(rows[|rows| - 1].created)
  }

  // --------------------------------------------------------------------
  // Database fallback
  // --------------------------------------------------------------------

  function FallbackRows(table: seq<Asset>, limit: nat, cursor: Option<int>, seen: set<int>): seq<Asset> {
    Take(Select(table, Cond(seen, cursor, None)), limit)
  }

  // --------------------------------------------------------------------
  // Preference stage
  // --------------------------------------------------------------------

  datatype FieldPrefs = FieldPrefs(field: string, keywords: seq<string>)

  const DEFAULT_PREFS: seq<FieldPrefs> := [
    FieldPrefs("categories", ["self contain", "mini flat", "1 bedroom flat", "2 bedroom flat", "3 bedroom flat",
                              "studio apartment", "serviced apartment", "duplex", "bungalow"]),
    FieldPrefs("tags", ["furnished", "semi-furnished", "serviced", "newly built", "secured estate", "gated compound",
                        "parking", "24/7 power", "water supply", "pet friendly"]),
    FieldPrefs("location", ["port harcourt", "lagos", "abuja", "ikeja", "lekki", "yaba", "gwarinpa", "trans amadi"]),
    FieldPrefs("price", ["below_300k", "300k_500k", "500k_800k", "800k_1.2m", "1.2m_plus"]),
    FieldPrefs("others", ["featured", "recent", "popular", "discounted", "high_demand"])
  ]

  datatype Quota = Quota(field: string, keyword: string, limit: nat)

  /** Fixed data a request reads: the asset table, the ranked zset in descending
      order, the users' preference lists, and which assets match a keyword. */
  datatype World = World(table: seq<Asset>, zset: seq<Ranked>, prefs: map<(int, string), seq<string>>,
                         matches: map<(string, string), set<int>>)
  {
    /** Only four fields are translated to a text match; `price` filters nothing. */
    function Only(field: string, keyword: string): Option<set<int>> {
      if field in {"categories", "tags", "location", "others"} then
        Some(if (field, keyword) in matches then matches[(field, keyword)] else {})
      else None
    }

    ghost predicate Valid() {
      NewestFirst(table) && DistinctIds(table) && Descending(zset) && DistinctMembers(zset)
    }
  }

  /** State kept between requests: round-robin counters and last scores. */
  datatype Memory = Memory(counters: map<(int, string), nat>, lastScores: map<int, real>)

  /** Identified users only; user id 0 counts as anonymous. */
  function Known(user: Option<int>): Option<int> {
    if user == Some(0) then None else user
  }

  function CeilDiv(a: nat, b: nat): nat
    requires b > 0
  {
    (a + b - 1) / b
  }

  /** The user's non-empty preference lists, in the order of the default fields. */
  function UserPrefs(w: World, user: int, fields: seq<FieldPrefs>): seq<FieldPrefs> {
    if fields == [] then []
    else
      var k := (user, fields[0].field);
      if k in w.prefs && w.prefs[k] != [] then
        [FieldPrefs(fields[0].field, w.prefs[k])] + UserPrefs(w, user, fields[1..])
      else UserPrefs(w, user, fields[1..])
  }

  function PrefsFor(w: World, user: Option<int>): (prefs: seq<FieldPrefs>)
    ensures prefs != []
  {
    var own := match Known(user) case None => [] case Some(u) => UserPrefs(w, u, DEFAULT_PREFS);
    if own == [] then DEFAULT_PREFS else own
  }

  function CountersKey(user: Option<int>): int {
    match Known(user) case None => -1 case Some(u) => u
  }

  function Bump(counters: map<(int, string), nat>, user: int, field: string): nat {
    1 + if (user, field) in counters then counters[(user, field)] else 0
  }

  /** One keyword per field, chosen by incrementing the field's counter. */
  function Quotas(counters: map<(int, string), nat>, user: int, prefs: seq<FieldPrefs>, limit: nat): seq<Quota>
    decreases |prefs|
  {
    if prefs == [] then []
    else if prefs[0].keywords == [] then Quotas(counters, user, prefs[1..], limit)
    else
      var idx := Bump(counters, user, prefs[0].field);
      [Quota(prefs[0].field, prefs[0].keywords[idx % |prefs[0].keywords|], limit)]
      + Quotas(counters[(user, prefs[0].field) := idx], user, prefs[1..], limit)
  }

  function Bumped(counters: map<(int, string), nat>, user: int, prefs: seq<FieldPrefs>): map<(int, string), nat>
    decreases |prefs|
  {
    if prefs == [] then counters
    else if prefs[0].keywords == [] then Bumped(counters, user, prefs[1..])
    else Bumped(counters[(user, prefs[0].field) := Bump(counters, user, prefs[0].field)], user, prefs[1..])
  }

  function QuotaRows(w: World, q: Quota, cursor: Option<int>, seen: set<int>): seq<Asset> {
    Take(Select(w.table, Cond(seen, cursor, w.Only(q.field, q.keyword))), q.limit)
  }

  /** Every field is queried with the same `seen`: it is not refreshed in between. */
  function PreferenceRows(w: World, qs: seq<Quota>, cursor: Option<int>, seen: set<int>): seq<Asset> {
    if qs == [] then [] else QuotaRows(w, qs[0], cursor, seen) + PreferenceRows(w, qs[1..], cursor, seen)
  }

  /** The cursor of the last field queried. */
  function PreferenceCursor(w: World, qs: seq<Quota>, cursor: Option<int>, seen: set<int>): Option<int> {
    if qs == [] then None else NextCursor(QuotaRows(w, qs[|qs| - 1], cursor, seen), cursor)
  }

  // --------------------------------------------------------------------
  // Auto-category stage
  // --------------------------------------------------------------------

  ghost predicate Descending(zset: seq<Ranked>) {
    forall i, j :: 0 <= i < j < |zset| ==> zset[i].score >= zset[j].score
  }

  ghost predicate DistinctMembers(zset: seq<Ranked>) {
    forall i, j :: 0 <= i < j < |zset| ==> zset[i].id != zset[j].id
  }

  datatype Score = PlusInf | At(score: real) {
    predicate AtLeast(x: real) {
      PlusInf? || x <= score
    }
  }

  /** A missing score and a score of zero both mean: start from the top. */
  function OrInf(s: Option<real>): Score {
    match s
    case None => PlusInf
    case Some(x) => if x == 0.0 then PlusInf else At(x)
  }

  function StartScore(m: Memory, user: Option<int>, lastScore: Option<real>): Score {
    match Known(user)
    case Some(u) => OrInf(if u in m.lastScores then Some(m.lastScores[u]) else None)
    case None => OrInf(lastScore)
  }

  /** `zrevrangebyscore(max, -inf)` */
  function AtMost(zset: seq<Ranked>, max: Score): seq<Ranked> {
    if zset == [] then []
    else if max.AtLeast(zset[0].score) then [zset[0]] + AtMost(zset[1..], max)
    else AtMost(zset[1..], max)
  }

  function Window(zset: seq<Ranked>, max: Score, limit: nat): seq<Ranked> {
    Take(AtMost(zset, max), limit * 2)
  }

  function Unseen(window: seq<Ranked>, seen: set<int>): seq<Ranked> {
    if window == [] then []
    else if window[0].id in seen then Unseen(window[1..], seen)
    else [window[0]] + Unseen(window[1..], seen)
  }

  function Selected(window: seq<Ranked>, limit: nat, seen: set<int>): seq<Ranked> {
    Take(Unseen(window, seen), limit)
  }

  function LastScore(selected: seq<Ranked>): Option<real> {
    if selected == [] then None else Some(selected[|selected| - 1].score)
  }

  /** The row with an id, if the table has one. */
  function Fetch(table: seq<Asset>, id: int): Option<Asset> {
    if table == [] then None else if table[0].id == id then Some(table[0]) else Fetch(table[1..], id)
  }

  /** `load_assets_by_ids`: existing rows in the order of `ids`. */
  function LoadByIds(table: seq<Asset>, ids: seq<Ranked>): seq<Asset> {
    if ids == [] then []
    else match Fetch(table, ids[0].id)
      case None => LoadByIds(table, ids[1..])
      case Some(a) => [a] + LoadByIds(table, ids[1..])
  }

  lemma LoadNothing(table: seq<Asset>)
    ensures LoadByIds(table, []) == []
  {
  }

  function Remember(m: Memory, user: Option<int>, next: Option<real>): Memory {
    match (Known(user), next)
    case (Some(u), Some(x)) => m.(lastScores := m.lastScores[u := x])
    case _ => m
  }

  // --------------------------------------------------------------------
  // The whole request
  // --------------------------------------------------------------------

  datatype Request = Request(user: Option<int>, size: nat, seen: set<int>,
                             dbCursor: Option<int>, autoCursor: Option<real>)
  {
    function Size(): nat { if size == 0 then MAX_RESULTS_PER_STREAM else size }
  }

  datatype Page = Page(data: seq<Asset>, seen: set<int>, autoCursor: Option<Score>, dbCursor: Option<int>)

  function RequestQuotas(w: World, m: Memory, q: Request): seq<Quota> {
    var prefs := PrefsFor(w, q.user);
    if prefs == [] then [] else Quotas(m.counters, CountersKey(q.user), prefs, CeilDiv(MAX_RESULTS_PER_STREAM, |prefs|))
  }

  /** Rows of the three stages. */
  function Stage1(w: World, m: Memory, q: Request): seq<Asset> {
    PreferenceRows(w, RequestQuotas(w, m, q), q.dbCursor, q.seen)
  }

  function Stage2Selected(w: World, m: Memory, q: Request): seq<Ranked> {
    var rows := Stage1(w, m, q);
    if |rows| < q.Size() then
      var limit := q.Size() - |rows|;
      Selected(Window(w.zset, StartScore(m, q.user, q.autoCursor), limit), limit, q.seen + Ids(rows))
    else []
  }

  function Stage2(w: World, m: Memory, q: Request): seq<Asset> {
    LoadByIds(w.table, Stage2Selected(w, m, q))
  }

  function Stage3(w: World, m: Memory, q: Request): seq<Asset> {
    var rows := Stage1(w, m, q) + Stage2(w, m, q);
    if |rows| < q.Size() then
      FallbackRows(w.table, q.Size() - |rows|, q.dbCursor, q.seen + Ids(rows))
    else []
  }

  function StreamPage(w: World, m: Memory, q: Request): Page {
    var rows1, rows2, rows3 := Stage1(w, m, q), Stage2(w, m, q), Stage3(w, m, q);
    Page(rows1 + rows2 + rows3,
         q.seen + Ids(rows1) + Ids(rows2) + Ids(rows3),
         if |rows1| < q.Size() then
           (match LastScore(Stage2Selected(w, m, q)) case None => None case Some(x) => Some(At(x)))
         else Some(PlusInf),
         if |rows1 + rows2| < q.Size() then NextCursor(rows3, q.dbCursor)
         else PreferenceCursor(w, RequestQuotas(w, m, q), q.dbCursor, q.seen))
  }

  function StreamMemory(w: World, m: Memory, q: Request): Memory {
    var prefs := PrefsFor(w, q.user);
    var counted := m.(counters := Bumped(m.counters, CountersKey(q.user), prefs));
    if |Stage1(w, m, q)| < q.Size() then Remember(counted, q.user, LastScore(Stage2Selected(w, m, q))) else counted
  }
}
