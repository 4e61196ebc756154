/**
 What a flush queues, when it fails, and that no image in use is ever deleted.
 */
module OutboxImages {
  import opened Prelude
  import opened Outbox

  // --------------------------------------------------------------------
  // What a flush queues, and when it fails
  // --------------------------------------------------------------------

  /** Release number `i` of a flush gives up image `p`: a deleted row by the id it has in
      memory, or a dirty row by its loaded old id, its new one being another. */
  predicate GivesUp(f: Flush, i: nat, p: PublicId) {
    && p != ""
    && if i < |f.deleted| then f.deleted[i].publicId == p
       else
         && i - |f.deleted| < |f.dirty|
         && f.dirty[i - |f.deleted|].before == Some(p) && f.dirty[i - |f.deleted|].current != p
  }

  predicate GivesUpDeleted(deleted: seq<Deletion>, i: nat, p: PublicId) {
    i < |deleted| && p != "" && deleted[i].publicId == p
  }

  predicate GivesUpDirty(dirty: seq<Change>, i: nat, p: PublicId) {
    i < |dirty| && p != "" && dirty[i].before == Some(p) && dirty[i].current != p
  }

  lemma {:induction false} DeletedMembers(deleted: seq<Deletion>, p: PublicId)
    ensures p in QueuedByDeletions(deleted) <==> exists i: nat :: GivesUpDeleted(deleted, i, p)
  {
    if deleted != [] {
      DeletedMembers(deleted[1..], p);
      if i: nat :| GivesUpDeleted(deleted, i, p) {
        if i > 0 { assert GivesUpDeleted(deleted[1..], i - 1, p); }
      }
      if i: nat :| GivesUpDeleted(deleted[1..], i, p) {
        assert GivesUpDeleted(deleted, i + 1, p);
      }
      assert deleted[0].publicId == p && p != "" ==> GivesUpDeleted(deleted, 0, p);
    }
  }

  lemma {:induction false} DirtyMembers(dirty: seq<Change>, p: PublicId)
    ensures p in QueuedByChanges(dirty) <==> exists i: nat :: GivesUpDirty(dirty, i, p)
  {
    if dirty != [] {
      DirtyMembers(dirty[1..], p);
      if i: nat :| GivesUpDirty(dirty, i, p) {
        if i > 0 { assert GivesUpDirty(dirty[1..], i - 1, p); }
      }
      if i: nat :| GivesUpDirty(dirty[1..], i, p) {
        assert GivesUpDirty(dirty, i + 1, p);
      }
      assert Releases(dirty[0]) ==> GivesUpDirty(dirty, 0, dirty[0].before.value);
    }
  }

  lemma GivesUpIff(f: Flush, p: PublicId)
    ensures (exists i: nat :: GivesUp(f, i, p)) <==>
            (exists i: nat :: GivesUpDeleted(f.deleted, i, p)) || exists i: nat :: GivesUpDirty(f.dirty, i, p)
  {
    var n := |f.deleted|;
    if i: nat :| GivesUp(f, i, p) {
      if i < n { assert GivesUpDeleted(f.deleted, i, p); } else { assert GivesUpDirty(f.dirty, i - n, p); }
    }
    if i: nat :| GivesUpDeleted(f.deleted, i, p) { assert GivesUp(f, i, p); }
    if i: nat :| GivesUpDirty(f.dirty, i, p) { assert GivesUp(f, i + n, p); }
  }

  /** A committed flush queues exactly the images its rows give up, and adds to the cloud
      exactly the ids it stores. */
  lemma FlushQueues(s: State, f: Flush, p: PublicId)
    requires AfterFlush(s, f).Some?
    ensures p in AfterFlush(s, f).value.queued <==> p in s.queued || exists i: nat :: GivesUp(f, i, p)
    ensures p in AfterFlush(s, f).value.cloud <==>
            || p in s.cloud || (exists c :: c in f.dirty && c.current == p)
            || exists i :: i in f.inserted && i.publicId == p
  {
    QueuedAfter(s, f, p);
    DeletedMembers(f.deleted, p);
    DirtyMembers(f.dirty, p);
    GivesUpIff(f, p);
  }

  /** Two releases of the list give up the same image. */
  predicate TwiceDeleted(deleted: seq<Deletion>, i: nat, j: nat, p: PublicId) {
    i < j && GivesUpDeleted(deleted, i, p) && GivesUpDeleted(deleted, j, p)
  }

  predicate TwiceDirty(dirty: seq<Change>, i: nat, j: nat, p: PublicId) {
    i < j && GivesUpDirty(dirty, i, p) && GivesUpDirty(dirty, j, p)
  }

  lemma {:induction false} DeletedTwice(deleted: seq<Deletion>)
    ensures NoDuplicates(QueuedByDeletions(deleted)) <==> forall i: nat, j: nat, p :: !TwiceDeleted(deleted, i, j, p)
  {
    if deleted != [] {
      var d, rest := deleted[0], deleted[1..];
      DeletedTwice(rest);
      DeletedMembers(rest, d.publicId);
      if d.publicId != "" { DuplicatesCons(d.publicId, QueuedByDeletions(rest)); }
      forall i: nat, j: nat, p | TwiceDeleted(deleted, i, j, p)
        ensures if i == 0 then GivesUpDeleted(rest, j - 1, d.publicId) && p == d.publicId
                else TwiceDeleted(rest, i - 1, j - 1, p) {}
      if i: nat, j: nat, p :| TwiceDeleted(rest, i, j, p) { assert TwiceDeleted(deleted, i + 1, j + 1, p); }
      if i: nat :| GivesUpDeleted(rest, i, d.publicId) { assert TwiceDeleted(deleted, 0, i + 1, d.publicId); }
    }
  }

  lemma {:induction false} DirtyTwice(dirty: seq<Change>)
    ensures NoDuplicates(QueuedByChanges(dirty)) <==> forall i: nat, j: nat, p :: !TwiceDirty(dirty, i, j, p)
  {
    if dirty != [] {
      var c, rest := dirty[0], dirty[1..];
      DirtyTwice(rest);
      if i: nat, j: nat, p :| TwiceDirty(rest, i, j, p) { assert TwiceDirty(dirty, i + 1, j + 1, p); }
      if Releases(c) {
        var p := c.before.value;
        DirtyMembers(rest, p);
        DuplicatesCons(p, QueuedByChanges(rest));
        if i: nat :| GivesUpDirty(rest, i, p) { assert TwiceDirty(dirty, 0, i + 1, p); }
      }
      forall i: nat, j: nat, p | TwiceDirty(dirty, i, j, p)
        ensures if i == 0 then Releases(c) && c.before == Some(p) && GivesUpDirty(rest, j - 1, p)
                else TwiceDirty(rest, i - 1, j - 1, p) {}
    }
  }

  lemma DuplicatesCons(p: PublicId, rest: seq<PublicId>)
    ensures NoDuplicates([p] + rest) <==> NoDuplicates(rest) && p !in rest
  {
    var all := [p] + rest;
    if NoDuplicates(all) {
      forall i, j | 0 <= i < j < |rest| ensures rest[i] != rest[j] { assert all[i + 1] != all[j + 1]; }
      forall i | 0 <= i < |rest| ensures rest[i] != p { assert all[0] != all[i + 1]; }
    }
  }

  lemma DuplicatesAppend(x: seq<PublicId>, y: seq<PublicId>)
    ensures NoDuplicates(x + y) <==> NoDuplicates(x) && NoDuplicates(y) && forall p :: p in x ==> p !in y
  {
    var z := x + y;
    if NoDuplicates(z) {
      forall i, j | 0 <= i < j < |x| ensures x[i] != x[j] { assert z[i] != z[j]; }
      forall i, j | 0 <= i < j < |y| ensures y[i] != y[j] { assert z[|x| + i] != z[|x| + j]; }
      forall i, j | 0 <= i < |x| && 0 <= j < |y| ensures x[i] != y[j] { assert z[i] != z[|x| + j]; }
    }
    if NoDuplicates(x) && NoDuplicates(y) && forall p :: p in x ==> p !in y {
      forall i, j | 0 <= i < j < |z| ensures z[i] != z[j] {
        if i < |x| <= j { assert z[i] in x && z[j] in y; }
      }
    }
  }

  /** Two releases of the flush give up the same image. */
  predicate Twice(f: Flush, i: nat, j: nat, p: PublicId) {
    i < j && GivesUp(f, i, p) && GivesUp(f, j, p)
  }

  /** The two are deletions, changes, or one of each. */
  lemma TwiceIff(f: Flush)
    ensures (exists i: nat, j: nat, p :: Twice(f, i, j, p)) <==>
            || (exists i: nat, j: nat, p :: TwiceDeleted(f.deleted, i, j, p))
            || (exists i: nat, j: nat, p :: TwiceDirty(f.dirty, i, j, p))
            || (exists i: nat, j: nat, p :: GivesUpDeleted(f.deleted, i, p) && GivesUpDirty(f.dirty, j, p))
  {
    var n := |f.deleted|;
    if i: nat, j: nat, p :| Twice(f, i, j, p) {
      if j < n { assert TwiceDeleted(f.deleted, i, j, p); }
      else if i >= n { assert TwiceDirty(f.dirty, i - n, j - n, p); }
      else { assert GivesUpDeleted(f.deleted, i, p) && GivesUpDirty(f.dirty, j - n, p); }
    }
    if i: nat, j: nat, p :| TwiceDeleted(f.deleted, i, j, p) { assert Twice(f, i, j, p); }
    if i: nat, j: nat, p :| TwiceDirty(f.dirty, i, j, p) { assert Twice(f, i + n, j + n, p); }
    if i: nat, j: nat, p :| GivesUpDeleted(f.deleted, i, p) && GivesUpDirty(f.dirty, j, p) {
      assert Twice(f, i, j + n, p);
    }
  }

  lemma QueueRepeatsIff(f: Flush)
    ensures NoDuplicates(Queued(f)) <==> forall i: nat, j: nat, p :: !Twice(f, i, j, p)
  {
    hide QueuedByDeletions, QueuedByChanges, Twice, TwiceDeleted, TwiceDirty, GivesUpDeleted, GivesUpDirty;
    var x, y := QueuedByDeletions(f.deleted), QueuedByChanges(f.dirty);
    DuplicatesAppend(x, y);
    DeletedTwice(f.deleted);
    DirtyTwice(f.dirty);
    TwiceIff(f);
    forall p ensures (p in x <==> exists i: nat :: GivesUpDeleted(f.deleted, i, p))
                     && (p in y <==> exists i: nat :: GivesUpDirty(f.dirty, i, p)) {
      DeletedMembers(f.deleted, p);
      DirtyMembers(f.dirty, p);
    }
    if p :| p in x && p in y {
      var i: nat :| GivesUpDeleted(f.deleted, i, p);
      var j: nat :| GivesUpDirty(f.dirty, j, p);
      assert GivesUpDeleted(f.deleted, i, p) && GivesUpDirty(f.dirty, j, p);
    }
    if i: nat, j: nat, p :| GivesUpDeleted(f.deleted, i, p) && GivesUpDirty(f.dirty, j, p) {
      assert p in x && p in y;
    }
  }

  lemma CollidesIff(s: State, f: Flush)
    ensures AfterFlush(s, f) == None <==> !NoDuplicates(Queued(f)) || exists p :: p in Queued(f) && p in s.queued
  {
    hide Queued;
    SharesIff(Queued(f), s.queued);
    assert Collides(s, f) <==> !NoDuplicates(Queued(f)) || Elements(Queued(f)) * s.queued != {};
  }

  lemma SharesIff(q: seq<PublicId>, queued: set<PublicId>)
    ensures Elements(q) * queued != {} <==> exists p :: p in q && p in queued
  {
    if p :| p in q && p in queued { assert p in Elements(q) * queued; }
    if Elements(q) * queued != {} {
      var p := Member(Elements(q) * queued);
      assert p in q && p in queued;
    }
  }

  lemma QueuedMembers(f: Flush, p: PublicId)
    ensures p in Queued(f) <==> exists i: nat :: GivesUp(f, i, p)
  {
    DeletedMembers(f.deleted, p);
    DirtyMembers(f.dirty, p);
    GivesUpIff(f, p);
  }

  /** The flush is rolled back exactly when two of its releases give up the same image, or
      one gives up an image that is queued already. */
  lemma FlushFailsIff(s: State, f: Flush)
    ensures AfterFlush(s, f) == None <==>
            || (exists i: nat, p :: GivesUp(f, i, p) && p in s.queued)
            || exists i: nat, j: nat, p :: i < j && GivesUp(f, i, p) && GivesUp(f, j, p)
  {
    hide Queued, GivesUp, AfterFlush;
    CollidesIff(s, f);
    QueueRepeatsIff(f);
    forall p ensures p in Queued(f) <==> exists i: nat :: GivesUp(f, i, p) { QueuedMembers(f, p); }
    if i: nat, j: nat, p :| i < j && GivesUp(f, i, p) && GivesUp(f, j, p) { assert Twice(f, i, j, p); }
  }

  // --------------------------------------------------------------------
  // No image in use is deleted
  // --------------------------------------------------------------------

  /** Every row has an image of its own, which is in the cloud and not queued. */
  ghost predicate KeepsImages(s: State) {
    && "" !in s.rows.Values && s.rows.Values <= s.cloud && s.rows.Values !! s.queued
    && forall q, r :: q in s.rows && r in s.rows && s.rows[q] == s.rows[r] ==> q == r
  }

  /** The flush gives row `r` an image it did not have. */
  predicate Stores(s: State, f: Flush, r: RowId, p: PublicId) {
    || (exists c :: c in f.dirty && c.row == r && c.current == p && (r in s.rows ==> s.rows[r] != p))
    || (exists i :: i in f.inserted && i.row == r && i.publicId == p)
  }

  /** What the flush stores is nobody's image, is not queued, and is stored once. */
  ghost predicate StoresFresh(s: State, f: Flush) {
    && (forall r, p :: Stores(s, f, r, p) ==> p !in s.rows.Values && p !in s.queued)
    && forall q, r, p :: Stores(s, f, q, p) && Stores(s, f, r, p) ==> q == r
  }

  /** The flush takes image `p` from row `q`. */
  predicate LosesImage(f: Flush, q: RowId, p: PublicId) {
    q in DeletedRows(f) || exists c :: c in f.dirty && c.row == q && c.current != p
  }

  /** When the hook sees the stored ids it queues exactly the images rows lose. */
  lemma QueuedIffLost(s: State, f: Flush, p: PublicId)
    requires WellFormed(s, f) && SeesStored(s, f) && AfterFlush(s, f).Some?
    ensures p in AfterFlush(s, f).value.queued <==>
            p in s.queued || (p != "" && exists q :: q in s.rows && s.rows[q] == p && LosesImage(f, q, p))
  {
    hide AfterFlush, WellFormed, SeesStored, GivesUp, LosesImage;
    FlushQueues(s, f, p);
    if i: nat :| GivesUp(f, i, p) { GivenUpIsLost(s, f, i, p); }
    if q :| p != "" && q in s.rows && s.rows[q] == p && LosesImage(f, q, p) { LostIsGivenUp(s, f, q, p); }
  }

  lemma GivenUpIsLost(s: State, f: Flush, i: nat, p: PublicId)
    requires WellFormed(s, f) && SeesStored(s, f) && GivesUp(f, i, p)
    ensures p != "" && exists q :: q in s.rows && s.rows[q] == p && LosesImage(f, q, p)
  {
    if i < |f.deleted| {
      assert f.deleted[i] in f.deleted && LosesImage(f, f.deleted[i].row, p);
    } else {
      var c := f.dirty[i - |f.deleted|];
      assert c in f.dirty && c.row in DirtyRows(f) && LosesImage(f, c.row, p);
    }
  }

  lemma LostIsGivenUp(s: State, f: Flush, q: RowId, p: PublicId)
    requires WellFormed(s, f) && SeesStored(s, f) && p != "" && q in s.rows && s.rows[q] == p && LosesImage(f, q, p)
    ensures exists i: nat :: GivesUp(f, i, p)
  {
    if q in DeletedRows(f) {
      var d :| d in f.deleted && d.row == q;
      var i :| 0 <= i < |f.deleted| && f.deleted[i] == d;
      assert GivesUp(f, i, p);
    } else {
      var c :| c in f.dirty && c.row == q && c.current != p;
      var i :| 0 <= i < |f.dirty| && f.dirty[i] == c;
      assert GivesUp(f, |f.deleted| + i, p);
    }
  }

  lemma StoresNew(s: State, f: Flush, r: RowId, p: PublicId)
    requires WellFormed(s, f) && Stores(s, f, r, p)
    ensures r in s.rows ==> s.rows[r] != p
    ensures p in Uploads(f)
  {
    if i :| i in f.inserted && i.row == r && i.publicId == p { assert r in InsertedRows(f); }
  }

  /** A row after the flush holds what the flush stores in it, or the image it keeps. */
  lemma HeldAfter(s: State, f: Flush, r: RowId)
    requires WellFormed(s, f) && AfterFlush(s, f).Some?
    ensures
      var t := AfterFlush(s, f).value;
      && (r in t.rows ==>
            || Stores(s, f, r, t.rows[r])
            || (r in s.rows && t.rows[r] == s.rows[r] && !LosesImage(f, r, s.rows[r])))
      && (forall p :: Stores(s, f, r, p) ==> r in t.rows && t.rows[r] == p)
      && (r in s.rows && !LosesImage(f, r, s.rows[r]) ==> r in t.rows && t.rows[r] == s.rows[r])
  {
    FlushRows(s, f, r);
    var rows := s.rows - DeletedRows(f);
    ChangedRowsMeaning(rows, f.dirty, r);
    InsertRowsMeaning(ChangedRows(rows, f.dirty), f.inserted, r);
  }

  /** When the hook sees the stored ids, a flush leaves every row with an image of its own
      that no worker will delete exactly when what it stores is fresh. */
  lemma FlushKeepsImagesIff(s: State, f: Flush)
    requires KeepsImages(s) && WellFormed(s, f) && SeesStored(s, f) && AfterFlush(s, f).Some?
    ensures KeepsImages(AfterFlush(s, f).value) <==> StoresFresh(s, f)
  {
    hide AfterFlush, Stores, WellFormed, SeesStored, LosesImage;
    var t := AfterFlush(s, f).value;
    forall r ensures
      && (r in t.rows ==>
            || Stores(s, f, r, t.rows[r])
            || (r in s.rows && t.rows[r] == s.rows[r] && !LosesImage(f, r, s.rows[r])))
      && (forall p :: Stores(s, f, r, p) ==> r in t.rows && t.rows[r] == p)
      && (r in s.rows && !LosesImage(f, r, s.rows[r]) ==> r in t.rows && t.rows[r] == s.rows[r])
    {
      HeldAfter(s, f, r);
    }
    forall p ensures (p in t.queued <==> p in s.queued || LostBySome(s, f, p))
                     && (p in s.cloud ==> p in t.cloud) {
      QueuedIffLost(s, f, p);
      if p in s.cloud { OldStaysInCloud(s, f, p); }
    }
    forall r, p | Stores(s, f, r, p) ensures p != "" && p in t.cloud && (r in s.rows ==> s.rows[r] != p) {
      StoresNew(s, f, r, p);
      StoredIsUploaded(s, f, p);
    }
    KeepsIff(s, f, t);
  }

  /** How the rows, the queue and the cloud of `t` follow from those of `s`. */
  ghost predicate FollowsFrom(s: State, f: Flush, t: State) {
    && (forall r :: r in t.rows ==>
          || Stores(s, f, r, t.rows[r])
          || (r in s.rows && t.rows[r] == s.rows[r] && !LosesImage(f, r, s.rows[r])))
    && (forall r, p :: Stores(s, f, r, p) ==>
          r in t.rows && t.rows[r] == p && p != "" && p in t.cloud && (r in s.rows ==> s.rows[r] != p))
    && (forall r :: r in s.rows && !LosesImage(f, r, s.rows[r]) ==> r in t.rows && t.rows[r] == s.rows[r])
    && (forall p :: (p in t.queued <==> p in s.queued || LostBySome(s, f, p)) && (p in s.cloud ==> p in t.cloud))
  }

  lemma KeepsIff(s: State, f: Flush, t: State)
    requires KeepsImages(s) && FollowsFrom(s, f, t)
    ensures KeepsImages(t) <==> StoresFresh(s, f)
  {
    hide Stores, LosesImage;
    if StoresFresh(s, f) {
      forall r | r in t.rows ensures t.rows[r] != "" && t.rows[r] in t.cloud && t.rows[r] !in t.queued {
        assert Stores(s, f, r, t.rows[r]) ==> !LostBySome(s, f, t.rows[r]);
        assert !Stores(s, f, r, t.rows[r]) ==> !LostBySome(s, f, t.rows[r]);
      }
      forall q, r | q in t.rows && r in t.rows && t.rows[q] == t.rows[r] ensures q == r {
        assert Stores(s, f, q, t.rows[q]) ==> t.rows[q] !in s.rows.Values;
        assert Stores(s, f, r, t.rows[r]) ==> t.rows[r] !in s.rows.Values;
      }
    }
    if KeepsImages(t) {
      forall r, p | Stores(s, f, r, p) ensures p !in s.rows.Values && p !in s.queued {
        assert p in t.rows.Values && !LostBySome(s, f, p);
        assert forall q :: q in s.rows && s.rows[q] == p ==> !LosesImage(f, q, p);
      }
    }
  }

  ghost predicate LostBySome(s: State, f: Flush, p: PublicId) {
    p != "" && exists q :: q in s.rows && s.rows[q] == p && LosesImage(f, q, p)
  }

  lemma OldStaysInCloud(s: State, f: Flush, p: PublicId)
    requires AfterFlush(s, f).Some? && p in s.cloud
    ensures p in AfterFlush(s, f).value.cloud
  {
  }

  lemma StoredIsUploaded(s: State, f: Flush, p: PublicId)
    requires WellFormed(s, f) && AfterFlush(s, f).Some? && p in Uploads(f)
    ensures p != "" && p in AfterFlush(s, f).value.cloud
  {
  }

  // --------------------------------------------------------------------
  // Every run
  // --------------------------------------------------------------------

  /** In every state of the run each row has an image of its own, safe from the worker. */
  ghost predicate AlwaysKeepsImages(s: State, ops: seq<Op>)
    decreases |ops|
  {
    KeepsImages(s) && (ops == [] || AlwaysKeepsImages(Step(s, ops[0]), ops[1..]))
  }

  ghost predicate AlwaysStoresFresh(s: State, ops: seq<Op>)
    decreases |ops|
  {
    ops == [] ||
    (&& (ops[0].DoFlush? && AfterFlush(s, ops[0].f).Some? ==> StoresFresh(s, ops[0].f))
     && AlwaysStoresFresh(Step(s, ops[0]), ops[1..]))
  }

  /** Over flushes, worker runs and crashes in any order, no image in use is ever deleted
      or queued exactly when no committed flush stores an id that is in use or queued. */
  lemma {:induction false} RunKeepsImagesIff(s: State, ops: seq<Op>)
    requires KeepsImages(s) && AllEnabled(s, ops)
    ensures AlwaysKeepsImages(s, ops) <==> AlwaysStoresFresh(s, ops)
    decreases |ops|
  {
    hide WellFormed, SeesStored, StoresFresh, AfterFlush, KeepsImages;
    if ops != [] {
      var t := Step(s, ops[0]);
      if ops[0].DoFlush? {
        if AfterFlush(s, ops[0].f).Some? { FlushKeepsImagesIff(s, ops[0].f); }
      } else {
        WorkerKeepsImages(s, ops[0]);
      }
      if KeepsImages(t) { RunKeepsImagesIff(t, ops[1..]); }
    }
  }

  lemma WorkerKeepsImages(s: State, op: Op)
    requires KeepsImages(s) && !op.DoFlush? && Enabled(s, op)
    ensures KeepsImages(Step(s, op))
  {
  }
}
