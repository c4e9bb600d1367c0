/**
 * The store logic of the task route handlers: direct create, list and
 * delete, and the two sync endpoints that apply a client's queued upserts
 * and deletions one item at a time.
 *
 * The authenticated principal is an `Option<Uid>`; `None` is the "no user"
 * case, answered before the store is touched. The store's choice of id for
 * an insert and the store's failures are parameters: `storeIds(i)` is the id
 * the store assigns to batch item `i`, and `fails(i)` says that the write
 * for item `i` raises an error.
 */
module Tasks {
  import opened Common
  import opened TaskModel

  datatype Error = Unauthorized | StoreFailure

  datatype Result<T> = Ok(value: T) | Err(error: Error)

  // ---------------------------------------------------------------------
  // Sync upsert
  // ---------------------------------------------------------------------

  /**
   * The effect of the first `n` items of an upsert batch: the table, the
   * rows returned so far and, once a write has failed, the index of the
   * failing item (after which nothing more is written).
   */
  datatype UpsertRun = UpsertRun(rows: map<Id, Task>, written: seq<Task>, failedAt: Option<nat>)

  function UpsertPrefix(rows0: map<Id, Task>, caller: Uid, batch: seq<Payload>,
                        storeIds: nat -> Id, fails: nat -> bool, n: nat): (run: UpsertRun)
    requires Keyed(rows0)
    requires n <= |batch|
    ensures Keyed(run.rows)
    ensures run.failedAt.None? ==> |run.written| == n
    ensures run.failedAt.Some? ==> run.failedAt.value < n && |run.written| == run.failedAt.value
    decreases n
  {
    if n == 0 then UpsertRun(rows0, [], None)
    else
      var prev := UpsertPrefix(rows0, caller, batch, storeIds, fails, n - 1);
      if prev.failedAt.Some? then prev
      else if fails(n - 1) then prev.(failedAt := Some(n - 1))
      else
        var res := UpsertRow(prev.rows, storeIds(n - 1), Stamp(caller, batch[n - 1]));
        UpsertRun(res.0, prev.written + [res.1], None)
  }

  /** Once an item has failed, later items change nothing. */
  lemma {:induction false} UpsertFailureSticks(rows0: map<Id, Task>, caller: Uid, batch: seq<Payload>,
                                               storeIds: nat -> Id, fails: nat -> bool, m: nat, n: nat)
    requires Keyed(rows0)
    requires m <= n <= |batch|
    requires UpsertPrefix(rows0, caller, batch, storeIds, fails, m).failedAt.Some?
    ensures UpsertPrefix(rows0, caller, batch, storeIds, fails, n)
         == UpsertPrefix(rows0, caller, batch, storeIds, fails, m)
    decreases n - m
  {
    if n > m {
      UpsertFailureSticks(rows0, caller, batch, storeIds, fails, m, n - 1);
    }
  }

  /** The effect of the first `n` items depends on those items only. */
  lemma {:induction false} UpsertPrefixOnly(rows0: map<Id, Task>, caller: Uid, batch: seq<Payload>,
                                            storeIds: nat -> Id, fails: nat -> bool, k: nat, n: nat)
    requires Keyed(rows0)
    requires n <= k <= |batch|
    ensures UpsertPrefix(rows0, caller, batch, storeIds, fails, n)
         == UpsertPrefix(rows0, caller, batch[..k], storeIds, fails, n)
  {
    if n > 0 {
      UpsertPrefixOnly(rows0, caller, batch, storeIds, fails, k, n - 1);
      assert batch[..k][n - 1] == batch[n - 1];
    }
  }

  /**
   * The client's `id`, `uid`, `pendingUpdate` and `pendingDelete` never reach
   * the store: two batches that differ only in those fields leave the same
   * table, return the same rows and fail at the same item.
   */
  lemma {:induction false} UpsertIgnoresClientFields(rows0: map<Id, Task>, caller: Uid,
                                                     batch: seq<Payload>, batch2: seq<Payload>,
                                                     storeIds: nat -> Id, fails: nat -> bool, n: nat)
    requires Keyed(rows0)
    requires n <= |batch| == |batch2|
    requires forall i :: 0 <= i < |batch| ==> SameColumns(batch[i], batch2[i])
    ensures UpsertPrefix(rows0, caller, batch, storeIds, fails, n)
         == UpsertPrefix(rows0, caller, batch2, storeIds, fails, n)
  {
    if n > 0 {
      UpsertIgnoresClientFields(rows0, caller, batch, batch2, storeIds, fails, n - 1);
      assert Stamp(caller, batch[n - 1]) == Stamp(caller, batch2[n - 1]);
    }
  }

  /** With no failing item among the first `n`, no failure is recorded. */
  lemma {:induction false} UpsertNoFailure(rows0: map<Id, Task>, caller: Uid, batch: seq<Payload>,
                                           storeIds: nat -> Id, fails: nat -> bool, n: nat)
    requires Keyed(rows0)
    requires n <= |batch|
    requires forall i :: 0 <= i < n ==> !fails(i)
    ensures UpsertPrefix(rows0, caller, batch, storeIds, fails, n).failedAt == None
  {
    if n > 0 {
      UpsertNoFailure(rows0, caller, batch, storeIds, fails, n - 1);
    }
  }

  /**
   * When no write fails, the call returns exactly one row per item, in batch
   * order; row `i` has the id the store chose for item `i` and the title,
   * description, colour, due date and update time item `i` carried.
   */
  lemma {:induction false} UpsertAllWritten(rows0: map<Id, Task>, caller: Uid, batch: seq<Payload>,
                                            storeIds: nat -> Id, fails: nat -> bool, n: nat, i: nat)
    requires Keyed(rows0)
    requires i < n <= |batch|
    requires forall j :: 0 <= j < n ==> !fails(j)
    ensures UpsertPrefix(rows0, caller, batch, storeIds, fails, n).failedAt == None
    ensures |UpsertPrefix(rows0, caller, batch, storeIds, fails, n).written| == n
    ensures UpsertPrefix(rows0, caller, batch, storeIds, fails, n).written[i].id == storeIds(i)
    ensures CarriesUpdate(UpsertPrefix(rows0, caller, batch, storeIds, fails, n).written[i], Stamp(caller, batch[i]))
  {
    UpsertNoFailure(rows0, caller, batch, storeIds, fails, n - 1);
    var prev := UpsertPrefix(rows0, caller, batch, storeIds, fails, n - 1);
    var run := UpsertPrefix(rows0, caller, batch, storeIds, fails, n);
    assert run.written == prev.written + [UpsertRow(prev.rows, storeIds(n - 1), Stamp(caller, batch[n - 1])).1];
    if i < n - 1 {
      UpsertAllWritten(rows0, caller, batch, storeIds, fails, n - 1, i);
      assert run.written[i] == prev.written[i];
    }
  }

  /** While no write fails, the row returned for item `i` is the one returned when item `i` was applied. */
  lemma {:induction false} UpsertWrittenKept(rows0: map<Id, Task>, caller: Uid, batch: seq<Payload>,
                                             storeIds: nat -> Id, fails: nat -> bool, n: nat, i: nat)
    requires Keyed(rows0)
    requires i < n <= |batch|
    requires forall j :: 0 <= j < n ==> !fails(j)
    ensures UpsertPrefix(rows0, caller, batch, storeIds, fails, n).failedAt == None
    ensures UpsertPrefix(rows0, caller, batch, storeIds, fails, i + 1).failedAt == None
    ensures |UpsertPrefix(rows0, caller, batch, storeIds, fails, n).written| == n
    ensures UpsertPrefix(rows0, caller, batch, storeIds, fails, n).written[i]
         == UpsertPrefix(rows0, caller, batch, storeIds, fails, i + 1).written[i]
  {
    UpsertNoFailure(rows0, caller, batch, storeIds, fails, n - 1);
    if i < n - 1 {
      UpsertWrittenKept(rows0, caller, batch, storeIds, fails, n - 1, i);
      var prev := UpsertPrefix(rows0, caller, batch, storeIds, fails, n - 1);
      var run := UpsertPrefix(rows0, caller, batch, storeIds, fails, n);
      assert run.written == prev.written + [UpsertRow(prev.rows, storeIds(n - 1), Stamp(caller, batch[n - 1])).1];
      assert run.written[i] == prev.written[i];
    }
  }

  /**
   * With no failure and the store's id for item `i` new to the table and
   * unused by the items before it, returned row `i` is item `i` stamped with
   * the caller under that id.
   */
  lemma UpsertFreshWritten(rows0: map<Id, Task>, caller: Uid, batch: seq<Payload>,
                           storeIds: nat -> Id, fails: nat -> bool, n: nat, i: nat)
    requires Keyed(rows0)
    requires i < n <= |batch|
    requires forall j :: 0 <= j < n ==> !fails(j)
    requires storeIds(i) !in rows0
    requires forall j :: 0 <= j < i ==> storeIds(j) != storeIds(i)
    ensures UpsertPrefix(rows0, caller, batch, storeIds, fails, n).failedAt == None
    ensures |UpsertPrefix(rows0, caller, batch, storeIds, fails, n).written| == n
    ensures UpsertPrefix(rows0, caller, batch, storeIds, fails, n).written[i] == Row(storeIds(i), Stamp(caller, batch[i]))
  {
    UpsertWrittenKept(rows0, caller, batch, storeIds, fails, n, i);
    UpsertFreshAbsent(rows0, caller, batch, storeIds, fails, i, storeIds(i));
    UpsertNoFailure(rows0, caller, batch, storeIds, fails, i);
    UpsertStep(rows0, caller, batch, storeIds, fails, i + 1);
  }

  /**
   * With no failure and the store's id for item `i` new to the table and
   * used by no other item, the table afterwards holds item `i` stamped with
   * the caller at that id.
   */
  lemma {:induction false} UpsertFreshStored(rows0: map<Id, Task>, caller: Uid, batch: seq<Payload>,
                                             storeIds: nat -> Id, fails: nat -> bool, n: nat, i: nat)
    requires Keyed(rows0)
    requires i < n <= |batch|
    requires forall j :: 0 <= j < n ==> !fails(j)
    requires storeIds(i) !in rows0
    requires forall j :: 0 <= j < n && j != i ==> storeIds(j) != storeIds(i)
    ensures var rows := UpsertPrefix(rows0, caller, batch, storeIds, fails, n).rows;
      storeIds(i) in rows && rows[storeIds(i)] == Row(storeIds(i), Stamp(caller, batch[i]))
  {
    UpsertNoFailure(rows0, caller, batch, storeIds, fails, n - 1);
    UpsertStep(rows0, caller, batch, storeIds, fails, n);
    if i < n - 1 {
      UpsertFreshStored(rows0, caller, batch, storeIds, fails, n - 1, i);
    } else {
      UpsertFreshAbsent(rows0, caller, batch, storeIds, fails, i, storeIds(i));
    }
  }

  /** An id that is new to the table and that the store chose for none of the first `n` items stays absent. */
  lemma {:induction false} UpsertFreshAbsent(rows0: map<Id, Task>, caller: Uid, batch: seq<Payload>,
                                             storeIds: nat -> Id, fails: nat -> bool, n: nat, id: Id)
    requires Keyed(rows0)
    requires n <= |batch|
    requires id !in rows0
    requires forall i :: 0 <= i < n ==> storeIds(i) != id
    ensures id !in UpsertPrefix(rows0, caller, batch, storeIds, fails, n).rows
  {
    if n > 0 {
      UpsertFreshAbsent(rows0, caller, batch, storeIds, fails, n - 1, id);
    }
  }

  /**
   * The case the route runs: the client id is stripped, so the store picks a
   * fresh id for every item. When item `i`'s id is new to the table and
   * differs from every other item's, and no write fails, returned row `i` is
   * exactly item `i` stamped with the caller under the store's id, hence
   * owned by the caller, and the table afterwards holds that same row.
   */
  lemma UpsertFreshRows(rows0: map<Id, Task>, caller: Uid, batch: seq<Payload>,
                        storeIds: nat -> Id, fails: nat -> bool, n: nat, i: nat)
    requires Keyed(rows0)
    requires i < n <= |batch|
    requires forall j :: 0 <= j < n ==> !fails(j)
    requires storeIds(i) !in rows0
    requires forall j :: 0 <= j < n && j != i ==> storeIds(j) != storeIds(i)
    ensures var run := UpsertPrefix(rows0, caller, batch, storeIds, fails, n);
      && run.failedAt == None
      && |run.written| == n
      && run.written[i] == Row(storeIds(i), Stamp(caller, batch[i]))
      && run.written[i].uid == caller
      && storeIds(i) in run.rows && run.rows[storeIds(i)] == run.written[i]
  {
    UpsertFreshWritten(rows0, caller, batch, storeIds, fails, n, i);
    UpsertFreshStored(rows0, caller, batch, storeIds, fails, n, i);
  }

  /** One successful write after a prefix without failure: the row goes at the store's id and is appended. */
  lemma UpsertStep(rows0: map<Id, Task>, caller: Uid, batch: seq<Payload>,
                   storeIds: nat -> Id, fails: nat -> bool, n: nat)
    requires Keyed(rows0)
    requires 0 < n <= |batch|
    requires UpsertPrefix(rows0, caller, batch, storeIds, fails, n - 1).failedAt == None && !fails(n - 1)
    ensures var prev := UpsertPrefix(rows0, caller, batch, storeIds, fails, n - 1);
      var run := UpsertPrefix(rows0, caller, batch, storeIds, fails, n);
      && run.failedAt == None
      && run.written == prev.written + [run.written[n - 1]]
      && run.rows == prev.rows[storeIds(n - 1) := run.written[n - 1]]
      && (storeIds(n - 1) !in prev.rows ==> run.written[n - 1] == Row(storeIds(n - 1), Stamp(caller, batch[n - 1])))
  {
    var prev := UpsertPrefix(rows0, caller, batch, storeIds, fails, n - 1);
    UpsertRowKeeps(prev.rows, storeIds(n - 1), Stamp(caller, batch[n - 1]));
  }

  /** A failing write after a prefix without failure records the failure and changes nothing else. */
  lemma UpsertFailStep(rows0: map<Id, Task>, caller: Uid, batch: seq<Payload>,
                       storeIds: nat -> Id, fails: nat -> bool, n: nat)
    requires Keyed(rows0)
    requires 0 < n <= |batch|
    requires UpsertPrefix(rows0, caller, batch, storeIds, fails, n - 1).failedAt == None && fails(n - 1)
    ensures UpsertPrefix(rows0, caller, batch, storeIds, fails, n)
         == UpsertPrefix(rows0, caller, batch, storeIds, fails, n - 1).(failedAt := Some(n - 1))
  {
  }

  /** A row the table had before a sync upsert keeps its owner, creation time and completion time. */
  lemma {:induction false} UpsertKeepsOwnership(rows0: map<Id, Task>, caller: Uid, batch: seq<Payload>,
                                                storeIds: nat -> Id, fails: nat -> bool, n: nat, id: Id)
    requires Keyed(rows0)
    requires n <= |batch|
    requires id in rows0
    ensures var rows := UpsertPrefix(rows0, caller, batch, storeIds, fails, n).rows;
      id in rows && rows[id].uid == rows0[id].uid && rows[id].createdAt == rows0[id].createdAt
      && rows[id].doneAt == rows0[id].doneAt
  {
    if n > 0 {
      UpsertKeepsOwnership(rows0, caller, batch, storeIds, fails, n - 1, id);
      var prev := UpsertPrefix(rows0, caller, batch, storeIds, fails, n - 1);
      if prev.failedAt.None? && !fails(n - 1) {
        UpsertRowKeeps(prev.rows, storeIds(n - 1), Stamp(caller, batch[n - 1]));
      }
    }
  }

  /**
   * A row a sync upsert added belongs to the caller, whatever owner the
   * payload named, and has an id the store chose for one of the items.
   */
  lemma {:induction false} UpsertNewRowsOwned(rows0: map<Id, Task>, caller: Uid, batch: seq<Payload>,
                                              storeIds: nat -> Id, fails: nat -> bool, n: nat, id: Id)
    requires Keyed(rows0)
    requires n <= |batch|
    requires id in UpsertPrefix(rows0, caller, batch, storeIds, fails, n).rows && id !in rows0
    ensures UpsertPrefix(rows0, caller, batch, storeIds, fails, n).rows[id].uid == caller
    ensures exists i :: 0 <= i < n && storeIds(i) == id
  {
    if n == 0 {
      assert false;
    }
    var prev := UpsertPrefix(rows0, caller, batch, storeIds, fails, n - 1);
    if prev.failedAt.None? && !fails(n - 1) {
      UpsertRowKeeps(prev.rows, storeIds(n - 1), Stamp(caller, batch[n - 1]));
      if id != storeIds(n - 1) || id in prev.rows {
        UpsertNewRowsOwned(rows0, caller, batch, storeIds, fails, n - 1, id);
      }
    } else {
      UpsertNewRowsOwned(rows0, caller, batch, storeIds, fails, n - 1, id);
    }
  }

  /** A row whose id the store chose for none of the items is untouched. */
  lemma {:induction false} UpsertUntouched(rows0: map<Id, Task>, caller: Uid, batch: seq<Payload>,
                                           storeIds: nat -> Id, fails: nat -> bool, n: nat, id: Id)
    requires Keyed(rows0)
    requires n <= |batch|
    requires id in rows0
    requires forall i :: 0 <= i < n ==> storeIds(i) != id
    ensures var rows := UpsertPrefix(rows0, caller, batch, storeIds, fails, n).rows;
      id in rows && rows[id] == rows0[id]
  {
    if n > 0 {
      UpsertUntouched(rows0, caller, batch, storeIds, fails, n - 1, id);
    }
  }

  /**
   * If item `k` is the first whose write fails, the call reports an error
   * and the table holds exactly what items `0..k-1` wrote: nothing is rolled
   * back.
   */
  lemma UpsertStopsAtFirstFailure(rows0: map<Id, Task>, caller: Uid, batch: seq<Payload>,
                                  storeIds: nat -> Id, fails: nat -> bool, k: nat)
    requires Keyed(rows0)
    requires k < |batch|
    requires fails(k)
    requires forall i :: 0 <= i < k ==> !fails(i)
    ensures var run := UpsertPrefix(rows0, caller, batch, storeIds, fails, |batch|);
      var done := UpsertPrefix(rows0, caller, batch[..k], storeIds, fails, k);
      && run.failedAt == Some(k)
      && done.failedAt == None
      && run.rows == done.rows
      && run.written == done.written
  {
    var prev := UpsertPrefix(rows0, caller, batch, storeIds, fails, k);
    UpsertNoFailure(rows0, caller, batch, storeIds, fails, k);
    UpsertFailStep(rows0, caller, batch, storeIds, fails, k + 1);
    UpsertFailureSticks(rows0, caller, batch, storeIds, fails, k + 1, |batch|);
    UpsertPrefixOnly(rows0, caller, batch, storeIds, fails, k, k);
  }

  /**
   * Submitting the same item twice, when the store hands out two fresh ids,
   * leaves two copies of it: the client-side id is discarded, so the row it
   * names is not updated and a resubmission is not recognised.
   */
  lemma ResubmissionDuplicates(rows0: map<Id, Task>, caller: Uid, p: Payload,
                               storeIds: nat -> Id, fails: nat -> bool)
    requires Keyed(rows0)
    requires !fails(0) && !fails(1)
    requires storeIds(0) !in rows0 && storeIds(1) !in rows0 && storeIds(0) != storeIds(1)
    ensures var rows := UpsertPrefix(rows0, caller, [p, p], storeIds, fails, 2).rows;
      && rows.Keys == rows0.Keys + {storeIds(0), storeIds(1)}
      && rows[storeIds(0)] == Row(storeIds(0), Stamp(caller, p))
      && rows[storeIds(1)] == Row(storeIds(1), Stamp(caller, p))
      && (forall id :: id in rows0 ==> rows[id] == rows0[id])
  {
  }

  /**
   * Two items that meet on the same row: the one applied last sets the
   * overwritten fields, whatever the two `updatedAt` values are. Since the
   * client id is discarded, items meet on one row only when the store hands
   * out the same id twice; two submissions of one task never do (that case
   * is `ResubmissionDuplicates`).
   */
  lemma LastAppliedWins(rows0: map<Id, Task>, caller: Uid, p: Payload, q: Payload,
                        storeIds: nat -> Id, fails: nat -> bool)
    requires Keyed(rows0)
    requires !fails(0) && !fails(1)
    requires storeIds(0) == storeIds(1)
    ensures var rows := UpsertPrefix(rows0, caller, [p, q], storeIds, fails, 2).rows;
      CarriesUpdate(rows[storeIds(1)], Stamp(caller, q))
  {
  }

  /** `POST /sync/update`. */
  method SyncUpdate(db: TaskTable, caller: Option<Uid>, batch: seq<Payload>,
                    storeIds: nat -> Id, fails: nat -> bool) returns (res: Result<seq<Task>>)
    requires db.Valid()
    modifies db
    ensures db.Valid()
    ensures caller.None? ==> res == Err(Unauthorized) && db.rows == old(db.rows)
    ensures caller.Some? ==>
      var run := UpsertPrefix(old(db.rows), caller.value, batch, storeIds, fails, |batch|);
      && db.rows == run.rows
      && res == (if run.failedAt.None? then Ok(run.written) else Err(StoreFailure))
  {
    if caller.None? {
      return Err(Unauthorized);
    }
    var uid := caller.value;
    var written: seq<Task> := [];
    var i := 0;
    while i < |batch|
      invariant 0 <= i <= |batch|
      invariant db.Valid()
      invariant UpsertPrefix(old(db.rows), uid, batch, storeIds, fails, i) == UpsertRun(db.rows, written, None)
    {
      if fails(i) {
        UpsertFailureSticks(old(db.rows), uid, batch, storeIds, fails, i + 1, |batch|);
        return Err(StoreFailure);
      }
      var row := db.InsertOnConflictUpdate(storeIds(i), Stamp(uid, batch[i]));
      written := written + [row];
      i := i + 1;
    }
    return Ok(written);
  }

  // ---------------------------------------------------------------------
  // Sync delete
  // ---------------------------------------------------------------------

  /** The effect of the first `n` ids of a delete batch. */
  datatype DeleteRun = DeleteRun(rows: map<Id, Task>, deleted: seq<Id>, failedAt: Option<nat>)

  function DeletePrefix(rows0: map<Id, Task>, ids: seq<Id>, fails: nat -> bool, n: nat): (run: DeleteRun)
    requires n <= |ids|
    ensures run.rows.Keys <= rows0.Keys
    ensures run.failedAt.None? ==> |run.deleted| == n
    ensures run.failedAt.Some? ==> run.failedAt.value < n && |run.deleted| == run.failedAt.value
    decreases n
  {
    if n == 0 then DeleteRun(rows0, [], None)
    else
      var prev := DeletePrefix(rows0, ids, fails, n - 1);
      if prev.failedAt.Some? then prev
      else if fails(n - 1) then prev.(failedAt := Some(n - 1))
      else DeleteRun(prev.rows - {ids[n - 1]}, prev.deleted + [ids[n - 1]], None)
  }

  lemma {:induction false} DeleteFailureSticks(rows0: map<Id, Task>, ids: seq<Id>, fails: nat -> bool, m: nat, n: nat)
    requires m <= n <= |ids|
    requires DeletePrefix(rows0, ids, fails, m).failedAt.Some?
    ensures DeletePrefix(rows0, ids, fails, n) == DeletePrefix(rows0, ids, fails, m)
    decreases n - m
  {
    if n > m {
      DeleteFailureSticks(rows0, ids, fails, m, n - 1);
    }
  }

  /**
   * When no delete fails, the call echoes exactly the submitted ids in
   * submission order, ids without a row included; afterwards no row with a
   * submitted id remains, whoever owned it, and every other row is unchanged.
   */
  lemma {:induction false} DeleteAllEchoes(rows0: map<Id, Task>, ids: seq<Id>, fails: nat -> bool, n: nat)
    requires n <= |ids|
    requires forall i :: 0 <= i < n ==> !fails(i)
    ensures DeletePrefix(rows0, ids, fails, n).failedAt == None
    ensures DeletePrefix(rows0, ids, fails, n).deleted == ids[..n]
    ensures forall id :: id in DeletePrefix(rows0, ids, fails, n).rows <==> id in rows0 && id !in ids[..n]
    ensures forall id :: id in DeletePrefix(rows0, ids, fails, n).rows ==>
      DeletePrefix(rows0, ids, fails, n).rows[id] == rows0[id]
  {
    if n > 0 {
      DeleteAllEchoes(rows0, ids, fails, n - 1);
      assert ids[..n] == ids[..n - 1] + [ids[n - 1]];
    }
  }

  /** Running a successful delete batch again leaves the table as it is. */
  lemma DeleteIdempotent(rows0: map<Id, Task>, ids: seq<Id>, fails: nat -> bool)
    requires forall i :: 0 <= i < |ids| ==> !fails(i)
    ensures var once := DeletePrefix(rows0, ids, fails, |ids|).rows;
      DeletePrefix(once, ids, fails, |ids|).rows == once
  {
    var once := DeletePrefix(rows0, ids, fails, |ids|).rows;
    DeleteAllEchoes(rows0, ids, fails, |ids|);
    DeleteAllEchoes(once, ids, fails, |ids|);
    var twice := DeletePrefix(once, ids, fails, |ids|).rows;
    assert twice.Keys == once.Keys;
  }

  /**
   * If the delete of the `k`-th id is the first to fail, the call reports an
   * error and the first `k` ids stay deleted.
   */
  lemma DeleteStopsAtFirstFailure(rows0: map<Id, Task>, ids: seq<Id>, fails: nat -> bool, k: nat)
    requires k < |ids|
    requires fails(k)
    requires forall i :: 0 <= i < k ==> !fails(i)
    ensures var run := DeletePrefix(rows0, ids, fails, |ids|);
      && run.failedAt == Some(k)
      && (forall id :: id in run.rows <==> id in rows0 && id !in ids[..k])
      && (forall id :: id in run.rows ==> run.rows[id] == rows0[id])
  {
    DeleteAllEchoes(rows0, ids, fails, k);
    DeleteFailureSticks(rows0, ids, fails, k + 1, |ids|);
  }

  /** `DELETE /sync/delete`. */
  method SyncDelete(db: TaskTable, caller: Option<Uid>, ids: seq<Id>, fails: nat -> bool)
    returns (res: Result<seq<Id>>)
    requires db.Valid()
    modifies db
    ensures db.Valid()
    ensures caller.None? ==> res == Err(Unauthorized) && db.rows == old(db.rows)
    ensures caller.Some? ==>
      var run := DeletePrefix(old(db.rows), ids, fails, |ids|);
      && db.rows == run.rows
      && res == (if run.failedAt.None? then Ok(run.deleted) else Err(StoreFailure))
  {
    if caller.None? {
      return Err(Unauthorized);
    }
    var deleted: seq<Id> := [];
    var i := 0;
    while i < |ids|
      invariant 0 <= i <= |ids|
      invariant db.Valid()
      invariant DeletePrefix(old(db.rows), ids, fails, i) == DeleteRun(db.rows, deleted, None)
    {
      if fails(i) {
        DeleteFailureSticks(old(db.rows), ids, fails, i + 1, |ids|);
        return Err(StoreFailure);
      }
      db.DeleteById(ids[i]);
      deleted := deleted + [ids[i]];
      i := i + 1;
    }
    return Ok(deleted);
  }

  // ---------------------------------------------------------------------
  // Direct create, list and delete
  // ---------------------------------------------------------------------

  /** Direct create passes a client-supplied id through; otherwise the store chooses. */
  function CreateId(body: Payload, storeId: Id): Id
  {
    if body.id.Some? then body.id.value else storeId
  }

  /**
   * A created row is listed for its owner and for nobody else; every other
   * owner's listing is unchanged.
   */
  lemma CreatedRowListedForCaller(rows: map<Id, Task>, caller: Uid, other: Uid, id: Id, body: Payload)
    requires id !in rows
    ensures OwnedBy(rows[id := Row(id, Stamp(caller, body))], caller)
         == OwnedBy(rows, caller)[id := Row(id, Stamp(caller, body))]
    ensures other != caller ==>
      OwnedBy(rows[id := Row(id, Stamp(caller, body))], other) == OwnedBy(rows, other)
  {
    var after := rows[id := Row(id, Stamp(caller, body))];
    assert OwnedBy(after, caller).Keys == OwnedBy(rows, caller).Keys + {id};
    if other != caller {
      assert OwnedBy(after, other).Keys == OwnedBy(rows, other).Keys;
    }
  }

  /** `POST /`. */
  method CreateTask(db: TaskTable, caller: Option<Uid>, body: Payload, storeId: Id, fails: bool)
    returns (res: Result<Task>)
    requires db.Valid()
    modifies db
    ensures db.Valid()
    ensures caller.None? ==> res == Err(Unauthorized) && db.rows == old(db.rows)
    ensures caller.Some? ==>
      var id := CreateId(body, storeId);
      if fails || id in old(db.rows) then
        res == Err(StoreFailure) && db.rows == old(db.rows)
      else
        && res == Ok(Row(id, Stamp(caller.value, body)))
        && res.value.uid == caller.value
        && (body.id.Some? ==> res.value.id == body.id.value)
        && db.rows == old(db.rows)[id := res.value]
  {
    if caller.None? {
      return Err(Unauthorized);
    }
    if fails {
      return Err(StoreFailure);
    }
    var inserted := db.Insert(CreateId(body, storeId), Stamp(caller.value, body));
    if inserted.None? {
      return Err(StoreFailure);
    }
    return Ok(inserted.value);
  }

  /** `GET /`: exactly the caller's rows. */
  method ListTasks(db: TaskTable, caller: Option<Uid>, fails: bool) returns (res: Result<map<Id, Task>>)
    ensures caller.None? ==> res == Err(Unauthorized)
    ensures caller.Some? && fails ==> res == Err(StoreFailure)
    ensures caller.Some? && !fails ==> res.Ok?
    ensures res.Ok? ==> forall id :: id in res.value <==> id in db.rows && db.rows[id].uid == caller.value
    ensures res.Ok? ==> forall id :: id in res.value ==> res.value[id] == db.rows[id]
  {
    if caller.None? {
      return Err(Unauthorized);
    }
    if fails {
      return Err(StoreFailure);
    }
    var owned := db.SelectByOwner(caller.value);
    return Ok(owned);
  }

  /** `DELETE /`: removes the row with the given id, whoever owns it; a missing row is no error. */
  method DeleteTask(db: TaskTable, caller: Option<Uid>, taskId: Id, fails: bool) returns (res: Result<()>)
    requires db.Valid()
    modifies db
    ensures db.Valid()
    ensures caller.None? || fails ==> res.Err? && db.rows == old(db.rows)
    ensures caller.None? ==> res == Err(Unauthorized)
    ensures caller.Some? && fails ==> res == Err(StoreFailure)
    ensures caller.Some? && !fails ==> res == Ok(()) && db.rows == old(db.rows) - {taskId}
  {
    if caller.None? {
      return Err(Unauthorized);
    }
    if fails {
      return Err(StoreFailure);
    }
    db.DeleteById(taskId);
    return Ok(());
  }
}
