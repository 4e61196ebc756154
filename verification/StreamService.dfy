/**
 The stream handler as it runs, with its round-robin counters and last scores
 updated in place.
 */
module StreamService {
  import opened Prelude
  import opened Stream
  import opened StreamPaging

  class StreamStore {
    const world: World
    var memory: Memory

    constructor (world: World, memory: Memory)
      ensures this.world == world && this.memory == memory
    {
      this.world := world;
      this.memory := memory;
    }

    /** Increment the field's counter and reduce it to a keyword index. */
    method NextPreference(user: int, field: string, size: nat) returns (idx: nat)
      requires size > 0
      modifies this
      ensures memory == old(memory).(counters :=
                old(memory).counters[(user, field) := Bump(old(memory).counters, user, field)])
      ensures idx == Bump(old(memory).counters, user, field) % size
    {
      var count := 1 + if (user, field) in memory.counters then memory.counters[(user, field)] else 0;
      memory := memory.(counters := memory.counters[(user, field) := count]);
      idx := count % size;
    }

    method AllocateQuotas(user: int, prefs: seq<FieldPrefs>, limit: nat) returns (quotas: seq<Quota>)
      modifies this
      ensures quotas == Quotas(old(memory).counters, user, prefs, limit)
      ensures memory == old(memory).(counters := Bumped(old(memory).counters, user, prefs))
    {
      quotas := [];
      for i := 0 to |prefs|
        invariant quotas + Quotas(memory.counters, user, prefs[i..], limit)
               == Quotas(old(memory).counters, user, prefs, limit)
        invariant memory.lastScores == old(memory).lastScores
        invariant Bumped(memory.counters, user, prefs[i..]) == Bumped(old(memory).counters, user, prefs)
      {
        assert prefs[i..][0] == prefs[i] && prefs[i..][1..] == prefs[i + 1..];
        var keywords := prefs[i].keywords;
        if keywords != [] {
          var idx := NextPreference(user, prefs[i].field, |keywords|);
          quotas := quotas + [Quota(prefs[i].field, keywords[idx], limit)];
        }
      }
      assert prefs[|prefs|..] == [];
    }

    method LoadFromPreference(seen: set<int>, user: Option<int>, cursor: Option<int>)
      returns (rows: seq<Asset>, nextCursor: Option<int>, ghost quotas: seq<Quota>)
      modifies this
      ensures quotas == RequestQuotas(world, old(memory), Request(user, 0, seen, cursor, None))
      ensures rows == PreferenceRows(world, quotas, cursor, seen)
      ensures nextCursor == PreferenceCursor(world, quotas, cursor, seen)
      ensures memory == old(memory).(counters := Bumped(old(memory).counters, CountersKey(user), PrefsFor(world, user)))
    {
      hide PrefsFor, Quotas, QuotaRows;
      var prefs := PrefsFor(world, user);
      var qs := AllocateQuotas(CountersKey(user), prefs, CeilDiv(MAX_RESULTS_PER_STREAM, |prefs|));
      quotas := qs;
      ghost var counted := memory;
      rows, nextCursor := [], None;
      for i := 0 to |qs|
        invariant memory == counted
        invariant rows + PreferenceRows(world, qs[i..], cursor, seen) == PreferenceRows(world, qs, cursor, seen)
        invariant nextCursor == if i < |qs| then None else PreferenceCursor(world, qs, cursor, seen)
      {
        assert qs[i..][0] == qs[i] && qs[i..][1..] == qs[i + 1..];
        var found := QuotaRows(world, qs[i], cursor, seen);
        Regroup(rows, found, PreferenceRows(world, qs[i + 1..], cursor, seen));
        rows := rows + found;
        if i == |qs| - 1 {
          nextCursor := NextCursor(found, cursor);
        }
      }
      assert qs[|qs|..] == [];
    }

    static lemma UnseenStep(window: seq<Ranked>, i: nat, seen: set<int>)
      requires i < |window|
      ensures Unseen(window[i..], seen) ==
              (if window[i].id in seen then [] else [window[i]]) + Unseen(window[i + 1..], seen)
    {
      assert window[i..][1..] == window[i + 1..];
    }

    static lemma LastOf(picked: seq<Ranked>, x: Ranked)
      ensures LastScore(picked + [x]) == Some(x.score)
    {
    }

    static lemma NothingUnseen(window: seq<Ranked>, seen: set<int>)
      ensures Unseen(window[0..], seen) == Unseen(window, seen) && Unseen(window[|window|..], seen) == []
      ensures LastScore([]) == None
    {
      assert window[0..] == window && window[|window|..] == [];
    }

    /** The scan over an overfetched window, stopping when `limit` ids are found. */
    method LoadFromAutoCategories(limit: nat, seen: set<int>, lastScore: Option<real>, user: Option<int>)
      returns (rows: seq<Asset>, nextScore: Option<real>)
      requires limit > 0
      modifies this
      ensures
        var picked := Selected(Window(world.zset, StartScore(old(memory), user, lastScore), limit), limit, seen);
        && rows == LoadByIds(world.table, picked)
        && nextScore == LastScore(picked)
        && memory == Remember(old(memory), user, nextScore)
    {
      hide Window, LoadByIds, LastScore, Unseen;
      var window := Window(world.zset, StartScore(memory, user, lastScore), limit);
      var assetIds: seq<Ranked> := [];
      nextScore := None;
      NothingUnseen(window, seen);
      var i := 0;
      while i < |window| && |assetIds| < limit
        invariant 0 <= i <= |window| && |assetIds| <= limit
        invariant assetIds + Unseen(window[i..], seen) == Unseen(window, seen)
        invariant nextScore == LastScore(assetIds) && memory == old(memory)
      {
        UnseenStep(window, i, seen);
        Regroup(assetIds, [window[i]], Unseen(window[i + 1..], seen));
        LastOf(assetIds, window[i]);
        if window[i].id !in seen {
          assetIds, nextScore := assetIds + [window[i]], Some(window[i].score);
        }
        i := i + 1;
      }
      assert assetIds + [] == assetIds;
      assert assetIds == Selected(window, limit, seen);
      memory := Remember(memory, user, nextScore);
      rows := LoadByIds(world.table, assetIds);
    }

    /** The newest verified, unseen assets older than the cursor. */
    method LoadFromDb(limit: nat, cursor: Option<int>, seen: set<int>)
      returns (rows: seq<Asset>, nextCursor: Option<int>)
      ensures NewestFirst(world.table) ==> NewestOf(rows, world.table, Cond(seen, cursor, None), limit)
      ensures rows == FallbackRows(world.table, limit, cursor, seen) && nextCursor == NextCursor(rows, cursor)
    {
      rows := FallbackRows(world.table, limit, cursor, seen);
      if NewestFirst(world.table) { QueryIsNewest(world.table, Cond(seen, cursor, None), limit); }
      nextCursor := if rows != [] then Some(rows[|rows| - 1].created) else cursor;
    }

    method LoadStreamState(q: Request) returns (page: Page)
      modifies this
      ensures page == StreamPage(world, old(memory), q)
      ensures memory == StreamMemory(world, old(memory), q)
    {
      hide PrefsFor, Quotas, Bumped, PreferenceRows, Selected, LoadByIds, FallbackRows, Window;
      var seenIds, size := q.seen, if q.size == 0 then MAX_RESULTS_PER_STREAM else q.size;
      var rows, nextCursor, _ := LoadFromPreference(seenIds, q.user, q.dbCursor);
      var results := rows;
      ghost var rows1 := rows;
      assert rows1 == Stage1(world, old(memory), q);
      assert nextCursor == PreferenceCursor(world, RequestQuotas(world, old(memory), q), q.dbCursor, q.seen);
      seenIds := seenIds + Ids(rows);
      var autoCursor: Option<Score> := Some(PlusInf);
      ghost var rows2 := [];
      if |results| < size {
        var score;
        assert StartScore(memory, q.user, q.autoCursor) == StartScore(old(memory), q.user, q.autoCursor);
        rows, score := LoadFromAutoCategories(size - |results|, seenIds, q.autoCursor, q.user);
        autoCursor := match score case None => None case Some(x) => Some(At(x));
        results := results + rows;
        seenIds := seenIds + Ids(rows);
        rows2 := rows;
      } else {
        assert LoadByIds(world.table, []) == [] by { LoadNothing(world.table); }
      }
      assert rows2 == Stage2(world, old(memory), q);
      if |results| < size {
        assert q.seen + Ids(rows1 + rows2) == seenIds;
        rows, nextCursor := LoadFromDb(size - |results|, q.dbCursor, seenIds);
        results := results + rows;
        seenIds := seenIds + Ids(rows);
      }
      page := Page(results, seenIds, autoCursor, nextCursor);
    }
  }
}
