/**
 The cloud deletion outbox: a flush hook queues public ids that rows give up, and a
 retrying worker deletes the queued images
 (app/models_helper.py, app/controllers/cloudinary/routines/delete_image_from_cloud.py).
 */
module Outbox {
  import opened Prelude

  type RowId = nat
  type PublicId = string

  /** The attribute history of a dirty image row: `before` is None when the previous
      value was never loaded. */
  datatype Change = Change(row: RowId, before: Option<PublicId>, current: PublicId) {
    predicate HasChanges() { before != Some(current) }
  }

  /** A deleted row with its public id as it is in memory. */
  datatype Deletion = Deletion(row: RowId, publicId: PublicId)

  datatype Insertion = Insertion(row: RowId, publicId: PublicId)

  /** `queued` is the outbox table, whose public ids are unique. */
  datatype State = State(cloud: set<PublicId>, rows: map<RowId, PublicId>, queued: set<PublicId>)

  // --------------------------------------------------------------------
  // The flush hook
  // --------------------------------------------------------------------

  function QueuedByDeletions(deleted: seq<Deletion>): seq<PublicId> {
    if deleted == [] then []
    else if deleted[0].publicId != "" then [deleted[0].publicId] + QueuedByDeletions(deleted[1..])
    else QueuedByDeletions(deleted[1..])
  }

  predicate Releases(c: Change) {
    c.HasChanges() && c.before.Some? && c.before.value != "" && c.before.value != c.current
  }

  function QueuedByChanges(dirty: seq<Change>): seq<PublicId> {
    if dirty == [] then []
    else if Releases(dirty[0]) then [dirty[0].before.value] + QueuedByChanges(dirty[1..])
    else QueuedByChanges(dirty[1..])
  }

  function Queued(f: Flush): seq<PublicId> {
    QueuedByDeletions(f.deleted) + QueuedByChanges(f.dirty)
  }

  /** One flush of the session. Uploads happen with the flush that stores them. */
  datatype Flush = Flush(deleted: seq<Deletion>, dirty: seq<Change>, inserted: seq<Insertion>)

  function DeletedRows(f: Flush): set<RowId> { set d | d in f.deleted :: d.row }

  function DirtyRows(f: Flush): set<RowId> { set c | c in f.dirty :: c.row }

  function InsertedRows(f: Flush): set<RowId> { set i | i in f.inserted :: i.row }

  function Uploads(f: Flush): set<PublicId> {
    (set c | c in f.dirty :: c.current) + (set i | i in f.inserted :: i.publicId)
  }

  /** A row appears once in a flush; deleted and dirty rows exist, inserted ones do not. */
  ghost predicate WellFormed(s: State, f: Flush) {
    && (forall i, j :: 0 <= i < j < |f.deleted| ==> f.deleted[i].row != f.deleted[j].row)
    && (forall i, j :: 0 <= i < j < |f.dirty| ==> f.dirty[i].row != f.dirty[j].row)
    && (forall i, j :: 0 <= i < j < |f.inserted| ==> f.inserted[i].row != f.inserted[j].row)
    && DeletedRows(f) <= s.rows.Keys && DirtyRows(f) <= s.rows.Keys && DeletedRows(f) !! DirtyRows(f)
    && InsertedRows(f) !! s.rows.Keys
    && (forall c :: c in f.dirty && c.before.Some? ==> c.before.value == s.rows[c.row])
    && "" !in Uploads(f)
  }

  function ChangedRows(rows: map<RowId, PublicId>, dirty: seq<Change>): map<RowId, PublicId>
    decreases |dirty|
  {
    if dirty == [] then rows else ChangedRows(rows[dirty[0].row := dirty[0].current], dirty[1..])
  }

  function InsertRows(rows: map<RowId, PublicId>, inserted: seq<Insertion>): map<RowId, PublicId>
    decreases |inserted|
  {
    if inserted == [] then rows else InsertRows(rows[inserted[0].row := inserted[0].publicId], inserted[1..])
  }

  /** The outbox insert violates its unique constraint. */
  predicate Collides(s: State, f: Flush) {
    var q := Queued(f);
    (exists i, j :: 0 <= i < j < |q| && q[i] == q[j]) || Elements(q) * s.queued != {}
  }

  /** None is the rolled-back flush. */
  function AfterFlush(s: State, f: Flush): Option<State> {
    if Collides(s, f) then None
    else Some(State(s.cloud + Uploads(f),
                    InsertRows(ChangedRows(s.rows - DeletedRows(f), f.dirty), f.inserted),
                    s.queued + Elements(Queued(f))))
  }

  // --------------------------------------------------------------------
  // The worker
  // --------------------------------------------------------------------

  /** A worker that deletes the images of `jobs` and then stops before commit. */
  function Crashed(s: State, jobs: seq<PublicId>): State {
    s.(cloud := s.cloud - Elements(jobs))
  }

  /** A complete run over all queued jobs. */
  function Drained(s: State): State {
    s.(cloud := s.cloud - s.queued, queued := {})
  }

  /** However often it crashes, after whatever part of the jobs, a retried worker
      reaches the state of one clean run. */
  lemma RetryReachesCleanRun(s: State, jobs: seq<PublicId>)
    requires Elements(jobs) <= s.queued
    ensures Drained(Crashed(s, jobs)) == Drained(s)
  {
    assert s.cloud - Elements(jobs) - s.queued == s.cloud - s.queued;
  }

  lemma {:induction false} RetriesReachCleanRun(s: State, crashes: seq<seq<PublicId>>)
    requires forall i :: 0 <= i < |crashes| ==> Elements(crashes[i]) <= s.queued
    ensures Drained(CrashedAll(s, crashes)) == Drained(s)
    decreases |crashes|
  {
    if crashes != [] {
      RetryReachesCleanRun(s, crashes[0]);
      RetriesReachCleanRun(Crashed(s, crashes[0]), crashes[1..]);
    }
  }

  function CrashedAll(s: State, crashes: seq<seq<PublicId>>): State
    decreases |crashes|
  {
    if crashes == [] then s else CrashedAll(Crashed(s, crashes[0]), crashes[1..])
  }

  // --------------------------------------------------------------------
  // No image leaks
  // --------------------------------------------------------------------

  /** Every image in the cloud is referenced by a row or queued for deletion. */
  ghost predicate NoLeak(s: State) {
    forall p :: p in s.cloud ==> p != "" && (p in s.rows.Values || p in s.queued)
  }

  lemma {:induction false} DeletionsQueue(deleted: seq<Deletion>, d: Deletion)
    requires d in deleted && d.publicId != ""
    ensures d.publicId in QueuedByDeletions(deleted)
  {
    if deleted[0] != d { DeletionsQueue(deleted[1..], d); }
  }

  lemma {:induction false} ChangesQueue(dirty: seq<Change>, c: Change)
    requires c in dirty && Releases(c)
    ensures c.before.value in QueuedByChanges(dirty)
  {
    if dirty[0] != c { ChangesQueue(dirty[1..], c); }
  }

  lemma {:induction false} ChangedRowsMeaning(rows: map<RowId, PublicId>, dirty: seq<Change>, r: RowId)
    requires forall i, j :: 0 <= i < j < |dirty| ==> dirty[i].row != dirty[j].row
    ensures
      var after := ChangedRows(rows, dirty);
      && (forall c :: c in dirty && c.row == r ==> r in after && after[r] == c.current)
      && ((forall c :: c in dirty ==> c.row != r) ==>
            (r in after <==> r in rows) && (r in rows ==> after[r] == rows[r]))
    decreases |dirty|
  {
    if dirty != [] {
      var rest := dirty[1..];
      assert forall i, j :: 0 <= i < j < |rest| ==> rest[i].row != rest[j].row;
      ChangedRowsMeaning(rows[dirty[0].row := dirty[0].current], rest, r);
      assert forall c :: c in dirty <==> c == dirty[0] || c in rest;
      if dirty[0].row == r {
        forall c | c in rest ensures c.row != r {
          var j :| 0 <= j < |rest| && rest[j] == c;
          assert dirty[j + 1] == c;
        }
      }
    }
  }

  lemma {:induction false} InsertRowsMeaning(rows: map<RowId, PublicId>, inserted: seq<Insertion>, r: RowId)
    requires forall i, j :: 0 <= i < j < |inserted| ==> inserted[i].row != inserted[j].row
    ensures
      var after := InsertRows(rows, inserted);
      && (forall i :: i in inserted && i.row == r ==> r in after && after[r] == i.publicId)
      && ((forall i :: i in inserted ==> i.row != r) ==>
            (r in after <==> r in rows) && (r in rows ==> after[r] == rows[r]))
    decreases |inserted|
  {
    if inserted != [] {
      var rest := inserted[1..];
      assert forall i, j :: 0 <= i < j < |rest| ==> rest[i].row != rest[j].row;
      InsertRowsMeaning(rows[inserted[0].row := inserted[0].publicId], rest, r);
      assert forall c :: c in inserted <==> c == inserted[0] || c in rest;
      if inserted[0].row == r {
        forall c | c in rest ensures c.row != r {
          var j :| 0 <= j < |rest| && rest[j] == c;
          assert inserted[j + 1] == c;
        }
      }
    }
  }

  /** Rows after a flush: deleted rows are gone, dirty and inserted rows hold their
      new ids, the others are untouched. */
  lemma FlushRows(s: State, f: Flush, r: RowId)
    requires WellFormed(s, f) && AfterFlush(s, f).Some?
    ensures
      var after := AfterFlush(s, f).value.rows;
      && (forall c :: c in f.dirty && c.row == r ==> r in after && after[r] == c.current)
      && (forall i :: i in f.inserted && i.row == r ==> r in after && after[r] == i.publicId)
      && (r in s.rows && r !in DeletedRows(f) && r !in DirtyRows(f) ==> r in after && after[r] == s.rows[r])
      && (r in DeletedRows(f) ==> r !in after)
  {
    var rows := s.rows - DeletedRows(f);
    ChangedRowsMeaning(rows, f.dirty, r);
    InsertRowsMeaning(ChangedRows(rows, f.dirty), f.inserted, r);
    assert forall c :: c in f.dirty ==> c.row in DirtyRows(f);
    assert forall i :: i in f.inserted ==> i.row in InsertedRows(f);
    if r in DirtyRows(f) {
      forall i | i in f.inserted ensures i.row != r { assert i.row in InsertedRows(f); }
    }
    if r in s.rows {
      forall i | i in f.inserted ensures i.row != r { assert i.row in InsertedRows(f); }
    }
  }

  // --------------------------------------------------------------------
  // Which flushes leak
  // --------------------------------------------------------------------

  /** The flush takes the stored image away from row `r` without the hook seeing it:
      the old value of a changed row was never loaded, or a deleted row had been
      changed in memory. */
  predicate ReleasedUnseen(s: State, f: Flush, r: RowId)
    requires r in s.rows
  {
    || (exists c :: c in f.dirty && c.row == r && c.before.None? && c.current != s.rows[r])
    || (exists d :: d in f.deleted && d.row == r && d.publicId != s.rows[r])
  }

  /** The image is queued, already or by this flush, is stored again by it, or is
      held by a row the flush does not touch. */
  ghost predicate Covered(s: State, f: Flush, p: PublicId) {
    || p in s.queued || p in Queued(f) || p in Uploads(f)
    || exists q :: q in s.rows && q !in DeletedRows(f) && q !in DirtyRows(f) && s.rows[q] == p
  }

  /** A row after the flush is an untouched one, or holds an id the flush stores. */
  lemma RowsAfter(s: State, f: Flush, r: RowId)
    requires WellFormed(s, f) && AfterFlush(s, f).Some? && r in AfterFlush(s, f).value.rows
    ensures
      var after := AfterFlush(s, f).value.rows;
      || after[r] in Uploads(f)
      || (r in s.rows && r !in DeletedRows(f) && r !in DirtyRows(f) && after[r] == s.rows[r])
  {
    FlushRows(s, f, r);
    var rows := s.rows - DeletedRows(f);
    ChangedRowsMeaning(rows, f.dirty, r);
    InsertRowsMeaning(ChangedRows(rows, f.dirty), f.inserted, r);
    if i :| i in f.inserted && i.row == r {
      assert i.publicId in Uploads(f);
    } else if c :| c in f.dirty && c.row == r {
      assert c.current in Uploads(f);
    } else {
      assert r in rows;
    }
  }

  /** What the hook sees it queues. */
  lemma SeenIsQueued(s: State, f: Flush, r: RowId)
    requires WellFormed(s, f) && r in s.rows && s.rows[r] != "" && !ReleasedUnseen(s, f, r)
    ensures
      || s.rows[r] in Queued(f) || s.rows[r] in Uploads(f)
      || (r !in DeletedRows(f) && r !in DirtyRows(f))
  {
    if r in DeletedRows(f) {
      var d :| d in f.deleted && d.row == r;
      DeletionsQueue(f.deleted, d);
    } else if r in DirtyRows(f) {
      var c :| c in f.dirty && c.row == r;
      if c.current == s.rows[r] {
        assert s.rows[r] in Uploads(f);
      } else {
        ChangesQueue(f.dirty, c);
      }
    }
  }

  /** After any flush a stored image is referenced or queued exactly when it is covered,
      its row being released unseen. */
  lemma CoveredAfterIff(s: State, f: Flush, r: RowId)
    requires WellFormed(s, f) && AfterFlush(s, f).Some? && r in s.rows && ReleasedUnseen(s, f, r)
    ensures
      var t := AfterFlush(s, f).value;
      s.rows[r] in t.rows.Values || s.rows[r] in t.queued <==> Covered(s, f, s.rows[r])
  {
    hide ReleasedUnseen, Queued, AfterFlush;
    CoveredStays(s, f, s.rows[r]);
    var t, p := AfterFlush(s, f).value, s.rows[r];
    if p in t.rows.Values {
      var q :| q in t.rows && t.rows[q] == p;
      RowsAfter(s, f, q);
    }
    QueuedAfter(s, f, p);
  }

  lemma QueuedAfter(s: State, f: Flush, p: PublicId)
    requires AfterFlush(s, f).Some?
    ensures p in AfterFlush(s, f).value.queued <==> p in s.queued || p in Queued(f)
    ensures p in AfterFlush(s, f).value.cloud <==> p in s.cloud || p in Uploads(f)
  {
  }

  /** A covered image is referenced or queued after the flush. */
  lemma CoveredStays(s: State, f: Flush, p: PublicId)
    requires WellFormed(s, f) && AfterFlush(s, f).Some?
    ensures
      var t := AfterFlush(s, f).value;
      Covered(s, f, p) ==> p in t.rows.Values || p in t.queued
  {
    hide Queued;
    var t := AfterFlush(s, f).value;
    if Covered(s, f, p) && p !in s.queued && p !in Queued(f) {
      if c :| c in f.dirty && c.current == p {
        FlushRows(s, f, c.row);
        assert t.rows[c.row] == p;
      } else if i :| i in f.inserted && i.publicId == p {
        FlushRows(s, f, i.row);
        assert t.rows[i.row] == p;
      } else {
        var q :| q in s.rows && q !in DeletedRows(f) && q !in DirtyRows(f) && s.rows[q] == p;
        FlushRows(s, f, q);
        assert t.rows[q] == p;
      }
    }
  }

  /** Every row the flush releases unseen has its image covered, or has none in the cloud. */
  ghost predicate NothingSlips(s: State, f: Flush) {
    forall r :: r in s.rows && ReleasedUnseen(s, f, r) ==> s.rows[r] !in s.cloud || Covered(s, f, s.rows[r])
  }

  /** A committed flush, whatever it inserts, deletes and changes, leaks nothing exactly
      when no image slips past the hook. */
  lemma FlushLeaksIff(s: State, f: Flush)
    requires NoLeak(s) && WellFormed(s, f) && AfterFlush(s, f).Some?
    ensures NoLeak(AfterFlush(s, f).value) <==> NothingSlips(s, f)
  {
    hide ReleasedUnseen, Covered, AfterFlush, Queued, Uploads;
    var t := AfterFlush(s, f).value;
    forall r | r in s.rows && ReleasedUnseen(s, f, r)
      ensures s.rows[r] in t.rows.Values || s.rows[r] in t.queued <==> Covered(s, f, s.rows[r])
    {
      CoveredAfterIff(s, f, r);
    }
    forall p ensures (p in t.cloud <==> p in s.cloud || p in Uploads(f))
                     && (p in t.queued <==> p in s.queued || p in Queued(f)) {
      QueuedAfter(s, f, p);
    }
    if NothingSlips(s, f) {
      forall p | p in t.cloud ensures p != "" && (p in t.rows.Values || p in t.queued) {
        CoveredStays(s, f, p);
        UploadsCovered(s, f, p);
        if p in s.cloud && p in s.rows.Values && p !in s.queued {
          var r :| r in s.rows && s.rows[r] == p;
          if !ReleasedUnseen(s, f, r) { SeenCovered(s, f, r); }
        }
      }
    }
  }

  lemma UploadsCovered(s: State, f: Flush, p: PublicId)
    requires WellFormed(s, f)
    ensures p in Uploads(f) ==> p != "" && Covered(s, f, p)
  {
  }

  lemma SeenCovered(s: State, f: Flush, r: RowId)
    requires WellFormed(s, f) && r in s.rows && s.rows[r] != "" && !ReleasedUnseen(s, f, r)
    ensures Covered(s, f, s.rows[r])
  {
    hide ReleasedUnseen, Queued, Uploads;
    SeenIsQueued(s, f, r);
  }

  /** The hook sees the stored value of every row that gives up its image. */
  ghost predicate SeesStored(s: State, f: Flush) {
    && (forall d :: d in f.deleted ==> d.row in s.rows && d.publicId == s.rows[d.row])
    && (forall c :: c in f.dirty ==> c.before.Some?)
  }

  /** A flush in which the hook sees the stored values leaks nothing. */
  lemma FlushKeepsNoLeak(s: State, f: Flush)
    requires NoLeak(s) && WellFormed(s, f) && SeesStored(s, f)
    ensures AfterFlush(s, f).Some? ==> NoLeak(AfterFlush(s, f).value)
  {
    if AfterFlush(s, f).Some? {
      FlushLeaksIff(s, f);
      assert forall r :: r in s.rows ==> !ReleasedUnseen(s, f, r);
    }
  }

  // --------------------------------------------------------------------
  // Runs
  // --------------------------------------------------------------------

  datatype Op = DoFlush(f: Flush) | CrashWorker(jobs: seq<PublicId>) | RunWorker

  function Step(s: State, op: Op): State {
    match op
    case DoFlush(f) => (match AfterFlush(s, f) case None => s case Some(t) => t)
    case CrashWorker(jobs) => Crashed(s, jobs)
    case RunWorker => Drained(s)
  }

  ghost predicate Enabled(s: State, op: Op) {
    match op
    case DoFlush(f) => WellFormed(s, f) && SeesStored(s, f)
    case CrashWorker(jobs) => Elements(jobs) <= s.queued
    case RunWorker => true
  }

  function Run(s: State, ops: seq<Op>): State
    decreases |ops|
  {
    if ops == [] then s else Run(Step(s, ops[0]), ops[1..])
  }

  ghost predicate AllEnabled(s: State, ops: seq<Op>)
    decreases |ops|
  {
    ops == [] || (Enabled(s, ops[0]) && AllEnabled(Step(s, ops[0]), ops[1..]))
  }

  /** In every reachable state no image leaks, over all inserts, deletes, changes,
      worker runs and worker crashes; after a clean run the cloud holds only
      images that rows reference. */
  lemma {:induction false} EveryRunIsLeakFree(s: State, ops: seq<Op>)
    requires NoLeak(s) && AllEnabled(s, ops)
    ensures NoLeak(Run(s, ops))
    ensures Drained(Run(s, ops)).cloud <= Run(s, ops).rows.Values
    decreases |ops|
  {
    if ops != [] {
      if ops[0].DoFlush? { FlushKeepsNoLeak(s, ops[0].f); }
      EveryRunIsLeakFree(Step(s, ops[0]), ops[1..]);
    }
  }

  ghost predicate AllWellFormed(s: State, ops: seq<Op>)
    decreases |ops|
  {
    ops == [] ||
    (&& (match ops[0]
         case DoFlush(f) => WellFormed(s, f)
         case CrashWorker(jobs) => Elements(jobs) <= s.queued
         case RunWorker => true)
     && AllWellFormed(Step(s, ops[0]), ops[1..]))
  }

  /** No state of the run leaks. */
  ghost predicate AlwaysLeakFree(s: State, ops: seq<Op>)
    decreases |ops|
  {
    NoLeak(s) && (ops == [] || AlwaysLeakFree(Step(s, ops[0]), ops[1..]))
  }

  ghost predicate NothingEverSlips(s: State, ops: seq<Op>)
    decreases |ops|
  {
    ops == [] ||
    (&& (ops[0].DoFlush? && AfterFlush(s, ops[0].f).Some? ==> NothingSlips(s, ops[0].f))
     && NothingEverSlips(Step(s, ops[0]), ops[1..]))
  }

  /** Whatever the hook sees, a run is free of leaks throughout exactly when no
      committed flush of it lets an image slip. */
  lemma {:induction false} RunLeaksIff(s: State, ops: seq<Op>)
    requires NoLeak(s) && AllWellFormed(s, ops)
    ensures AlwaysLeakFree(s, ops) <==> NothingEverSlips(s, ops)
    decreases |ops|
  {
    hide WellFormed, NothingSlips, AfterFlush;
    if ops != [] {
      var t := Step(s, ops[0]);
      if ops[0].DoFlush? {
        if AfterFlush(s, ops[0].f).Some? { FlushLeaksIff(s, ops[0].f); }
      } else {
        WorkerKeepsNoLeak(s, ops[0]);
      }
      if NoLeak(t) { RunLeaksIff(t, ops[1..]); }
    }
  }

  lemma WorkerKeepsNoLeak(s: State, op: Op)
    requires NoLeak(s) && !op.DoFlush?
    ensures NoLeak(Step(s, op))
  {
  }

  // --------------------------------------------------------------------
  // The two ways in which the hook is blind, each on its own
  // --------------------------------------------------------------------

  /** One changed row: its old image leaks exactly when its old value had not been
      loaded, it was in the cloud, and nothing else covers it. */
  lemma ChangeLeaksIff(s: State, r: RowId, before: Option<PublicId>, current: PublicId)
    requires NoLeak(s) && r in s.rows && s.rows[r] != "" && current != s.rows[r] && current != ""
    requires before.Some? ==> before.value == s.rows[r]
    ensures
      var f := Flush([], [Change(r, before, current)], []);
      AfterFlush(s, f).Some? ==>
        (NoLeak(AfterFlush(s, f).value) <==> before.Some? || s.rows[r] !in s.cloud || Covered(s, f, s.rows[r]))
  {
    var c := Change(r, before, current);
    var f := Flush([], [c], []);
    assert f.dirty[0] == c && DeletedRows(f) == {} && DirtyRows(f) == {r} && Uploads(f) == {current};
    if AfterFlush(s, f).Some? {
      FlushLeaksIff(s, f);
      hide AfterFlush, Covered, NoLeak;
      assert forall q :: q in s.rows ==> (ReleasedUnseen(s, f, q) <==> q == r && before.None?);
    }
  }

  /** One deleted row that had been changed in memory: the new id is queued, and the
      stored image leaks exactly when nothing else covers it. */
  lemma ChangedAndDeletedLeaksIff(s: State, r: RowId, memory: PublicId)
    requires NoLeak(s) && r in s.rows && s.rows[r] != "" && memory != s.rows[r] && memory != ""
    ensures
      var f := Flush([Deletion(r, memory)], [], []);
      AfterFlush(s, f).Some? ==>
        (NoLeak(AfterFlush(s, f).value) <==> s.rows[r] !in s.cloud || Covered(s, f, s.rows[r]))
  {
    var d := Deletion(r, memory);
    var f := Flush([d], [], []);
    assert f.deleted[0] == d && DeletedRows(f) == {r} && DirtyRows(f) == {} && Uploads(f) == {};
    if AfterFlush(s, f).Some? {
      FlushLeaksIff(s, f);
      hide AfterFlush, Covered, NoLeak;
      assert forall q :: q in s.rows ==> (ReleasedUnseen(s, f, q) <==> q == r);
    }
  }

  /** The worker leaves every referenced image in place exactly when no queued id
      is referenced again by a row. */
  lemma WorkerKeepsImagesIff(s: State)
    requires s.rows.Values <= s.cloud
    ensures s.rows.Values <= Drained(s).cloud <==> s.rows.Values !! s.queued
  {
  }

  // --------------------------------------------------------------------
  // As they run
  // --------------------------------------------------------------------

  class CloudStore {
    var state: State

    constructor ()
      ensures state == State({}, map[], {})
    {
      state := State({}, map[], {});
    }

    /** The hook: loops over deleted and dirty objects, adding outbox rows. */
    static method PublicIdChanges(deleted: seq<Deletion>, dirty: seq<Change>) returns (added: seq<PublicId>)
      ensures added == QueuedByDeletions(deleted) + QueuedByChanges(dirty)
    {
      hide QueuedByDeletions, QueuedByChanges;
      added := [];
      assert deleted[0..] == deleted && dirty[0..] == dirty;
      for i := 0 to |deleted|
        invariant added + QueuedByDeletions(deleted[i..]) == QueuedByDeletions(deleted)
      {
        DeletionStep(deleted, i);
        if deleted[i].publicId != "" {
          added := added + [deleted[i].publicId];
        }
      }
      NothingLeft(deleted, dirty);
      assert added + [] == added;
      ghost var first := added;
      for i := 0 to |dirty|
        invariant added + QueuedByChanges(dirty[i..]) == first + QueuedByChanges(dirty)
      {
        ChangeStep(dirty, i);
        var c := dirty[i];
        if c.HasChanges() {
          var oldValue := c.before;
          if oldValue.Some? && oldValue.value != "" && oldValue.value != c.current {
            added := added + [oldValue.value];
          }
        }
      }
      assert added + [] == added;
    }

    static lemma DeletionStep(deleted: seq<Deletion>, i: nat)
      requires i < |deleted|
      ensures QueuedByDeletions(deleted[i..]) ==
              (if deleted[i].publicId != "" then [deleted[i].publicId] else []) + QueuedByDeletions(deleted[i + 1..])
    {
      assert deleted[i..][1..] == deleted[i + 1..];
    }

    static lemma ChangeStep(dirty: seq<Change>, i: nat)
      requires i < |dirty|
      ensures QueuedByChanges(dirty[i..]) ==
              (if Releases(dirty[i]) then [dirty[i].before.value] else []) + QueuedByChanges(dirty[i + 1..])
    {
      assert dirty[i..][1..] == dirty[i + 1..];
    }

    static lemma NothingLeft(deleted: seq<Deletion>, dirty: seq<Change>)
      ensures QueuedByDeletions(deleted[|deleted|..]) == [] && QueuedByChanges(dirty[|dirty|..]) == []
    {
      assert deleted[|deleted|..] == [] && dirty[|dirty|..] == [];
    }

    method FlushSession(f: Flush) returns (ok: bool)
      modifies this
      ensures match AfterFlush(old(state), f)
              case None => !ok && state == old(state)
              case Some(t) => ok && state == t
    {
      var added := PublicIdChanges(f.deleted, f.dirty);
      if Collides(state, f) {
        return false;
      }
      state := State(state.cloud + Uploads(f),
                     InsertRows(ChangedRows(state.rows - DeletedRows(f), f.dirty), f.inserted),
                     state.queued + Elements(added));
      ok := true;
    }

    /** The worker over the selected jobs. `crashAt` jobs are processed when it
        crashes; otherwise it commits the deletion of all jobs. */
    method Routine(jobs: seq<PublicId>, crashAt: Option<nat>)
      requires Elements(jobs) == state.queued
      requires crashAt.Some? ==> crashAt.value <= |jobs|
      modifies this
      ensures state == match crashAt
                       case None => Drained(old(state))
                       case Some(n) => Crashed(old(state), jobs[..n])
      ensures state.rows == old(state).rows && state.queued == if crashAt.None? then {} else old(state).queued
      ensures forall p :: p in state.cloud <==>
                p in old(state).cloud && p !in jobs[..if crashAt.None? then |jobs| else crashAt.value]
    {
      var n := match crashAt case None => |jobs| case Some(n) => n;
      var remaining := state.queued;
      for i := 0 to n
        invariant state == Crashed(old(state), jobs[..i])
        invariant remaining == old(state).queued - Elements(jobs[..i])
      {
        assert jobs[..i + 1] == jobs[..i] + [jobs[i]];
        assert Elements(jobs[..i + 1]) == Elements(jobs[..i]) + {jobs[i]};
        state := state.(cloud := state.cloud - {jobs[i]});
        remaining := remaining - {jobs[i]};
        assert state.cloud == old(state).cloud - Elements(jobs[..i + 1]);
      }
      if crashAt.None? {
        assert jobs[..n] == jobs;
        state := state.(queued := remaining);
      }
    }
  }
}
