/**
 * The two queue-draining tasks: `sql_mark_read`, which acknowledges the wheels
 * staged on the correct-wheels list in the ledger, and `redis_clear_failed_wheels`,
 * which deletes the documents of wheels staged on the failed-wheels list.
 */
module QueueTasks {
  import opened Wrappers
  import opened Ledger
  import opened Staging

  // ---------------------------------------------------------------------------
  // sql_mark_read
  // ---------------------------------------------------------------------------

  /**
   * How the task ends: it returns the acknowledged rows, it asks Celery for a
   * retry (a Redis error on LRANGE, a database error), or it raises (a Redis
   * error on one of the LREMs after the commit).
   */
  datatype AckOutcome = Acked(rows: seq<LedgerRow>) | RetryRequested | Raised

  /** The outcome together with the staging list and the read table it leaves. */
  datatype AckState = AckState(outcome: AckOutcome, queue: seq<LedgerRow>, table: seq<LedgerRow>)

  /** One UPDATE parameter tuple per staged row, in list order. */
  function AckKeys(rows: seq<LedgerRow>): (keys: seq<AckKey>)
    ensures |keys| == |rows|
  {
    seq(|rows|, i requires 0 <= i < |rows| => AckKeyOf(rows[i]))
  }

  lemma AckKeysMembers(rows: seq<LedgerRow>, x: LedgerRow)
    requires x in rows
    ensures AckKeyOf(x) in AckKeys(rows)
  {
    var i :| 0 <= i < |rows| && rows[i] == x;
    assert AckKeys(rows)[i] == AckKeyOf(x);
  }

  /** Whether the LREM of entry `i` of the snapshot raises. */
  predicate LremFails(lremFailsAt: Option<nat>, i: nat) {
    lremFailsAt == Some(i)
  }

  /**
   * The whole run on a staging list `queue` and read table `table`: `redisUp`
   * says whether LRANGE succeeds, `sqlUp` whether the batch commits, and
   * `lremFailsAt` names the first LREM that raises, if any.
   */
  function MarkReadRun(queue: seq<LedgerRow>, table: seq<LedgerRow>, redisUp: bool, sqlUp: bool,
                       lremFailsAt: Option<nat>): (run: AckState)
    ensures forall x :: x in run.queue ==> x in queue
    ensures |run.table| == |table|
    ensures run.table != table ==> redisUp && sqlUp && queue != []
  {
    if !redisUp then AckState(RetryRequested, queue, table)
    else if queue == [] then AckState(Acked([]), queue, table)
    else if !sqlUp then AckState(RetryRequested, queue, table)
    else
      var marked := ExecuteMany(table, AckKeys(queue));
      if lremFailsAt.Some? && lremFailsAt.value < |queue| then
        AckState(Raised, RemoveEach(queue, queue[..lremFailsAt.value]), marked)
      else
        AckState(Acked(queue), RemoveEach(queue, queue), marked)
  }

  /** The task returns the rows exactly when every step succeeds, and then the list is empty. */
  lemma MarkReadAckedExactly(queue: seq<LedgerRow>, table: seq<LedgerRow>, redisUp: bool, sqlUp: bool,
                             lremFailsAt: Option<nat>)
    ensures var run := MarkReadRun(queue, table, redisUp, sqlUp, lremFailsAt);
      run.outcome.Acked? <==>
        redisUp && (queue == [] || (sqlUp && !(lremFailsAt.Some? && lremFailsAt.value < |queue|)))
    ensures var run := MarkReadRun(queue, table, redisUp, sqlUp, lremFailsAt);
      run.outcome.Acked? ==> run.outcome.rows == queue && run.queue == []
  {
    DrainSnapshot(queue, queue);
  }

  /** A retried run leaves both the list and the table as they were. */
  lemma MarkReadRetryChangesNothing(queue: seq<LedgerRow>, table: seq<LedgerRow>, redisUp: bool, sqlUp: bool,
                                    lremFailsAt: Option<nat>)
    ensures var run := MarkReadRun(queue, table, redisUp, sqlUp, lremFailsAt);
      run.outcome == RetryRequested <==> !redisUp || (queue != [] && !sqlUp)
    ensures var run := MarkReadRun(queue, table, redisUp, sqlUp, lremFailsAt);
      run.outcome == RetryRequested ==> run.queue == queue && run.table == table
  {
  }

  /**
   * No staged wheel is lost: an entry leaves the list only after the batch that
   * marks every pending ledger row with its key has been committed.
   */
  lemma MarkReadNoLoss(queue: seq<LedgerRow>, table: seq<LedgerRow>, redisUp: bool, sqlUp: bool,
                       lremFailsAt: Option<nat>, x: LedgerRow)
    requires x in queue
    requires x !in MarkReadRun(queue, table, redisUp, sqlUp, lremFailsAt).queue
    ensures var run := MarkReadRun(queue, table, redisUp, sqlUp, lremFailsAt);
      |run.table| == |table| &&
      forall i :: 0 <= i < |table| && AckKeyOf(table[i]) == AckKeyOf(x) ==> run.table[i].mark == 1 || table[i].mark != 0
  {
    var keys := AckKeys(queue);
    AckKeysMembers(queue, x);
  }

  /**
   * After an LREM raised, the next run on the leftover entries commits a batch
   * that changes nothing in the table and drains the list.
   */
  lemma MarkReadRerunAfterRaise(queue: seq<LedgerRow>, table: seq<LedgerRow>, k: nat)
    requires k < |queue|
    ensures var run := MarkReadRun(queue, table, true, true, Some(k));
      var again := MarkReadRun(run.queue, run.table, true, true, None);
      run.outcome == Raised && again.outcome == Acked(run.queue) && again.queue == [] && again.table == run.table
  {
    var run := MarkReadRun(queue, table, true, true, Some(k));
    forall kk | kk in AckKeys(run.queue)
      ensures kk in AckKeys(queue)
    {
      var i :| 0 <= i < |AckKeys(run.queue)| && AckKeys(run.queue)[i] == kk;
      assert run.queue[i] in queue;
      AckKeysMembers(queue, run.queue[i]);
    }
    MarkReadSubsumed(table, AckKeys(queue), AckKeys(run.queue));
    MarkReadAckedExactly(run.queue, run.table, true, true, None);
  }

  /**
   * The LREM loop after the commit: one LREM per snapshot entry, in order,
   * stopping at the first one that raises.
   */
  method RemoveRecords(queue: RedisList<LedgerRow>, records: seq<LedgerRow>, lremFailsAt: Option<nat>)
    returns (raised: bool)
    requires queue.items == records
    modifies queue
    ensures raised <==> lremFailsAt.Some? && lremFailsAt.value < |records|
    ensures queue.items == RemoveEach(records, if raised then records[..lremFailsAt.value] else records)
  {
    var i := 0;
    assert records[..0] == [];
    while i < |records|
      invariant 0 <= i <= |records|
      invariant queue.items == RemoveEach(records, records[..i])
      invariant lremFailsAt.Some? ==> lremFailsAt.value >= i
    {
      if LremFails(lremFailsAt, i) {
        return true;
      }
      RemoveRecord(queue, records, i);
      i := i + 1;
    }
    assert records[..i] == records;
    raised := false;
  }

  /** One LREM of the acknowledgement loop: the prefix removed so far grows by `records[i]`. */
  method RemoveRecord(queue: RedisList<LedgerRow>, records: seq<LedgerRow>, i: nat)
    requires i < |records|
    requires queue.items == RemoveEach(records, records[..i])
    modifies queue
    ensures queue.items == RemoveEach(records, records[..i + 1])
  {
    var removed := queue.LRem(records[i]);
    RemoveEachSnoc(records, records[..i], records[i]);
    assert records[..i + 1] == records[..i] + [records[i]];
  }

  /** `sql_mark_read` on the correct-wheels list and the ledger's read table. */
  method SqlMarkRead(queue: RedisList<LedgerRow>, db: Database, redisUp: bool, sqlUp: bool,
                     lremFailsAt: Option<nat>) returns (r: AckOutcome)
    modifies queue, db`readTable
    ensures var run := MarkReadRun(old(queue.items), old(db.readTable), redisUp, sqlUp, lremFailsAt);
      r == run.outcome && queue.items == run.queue && db.readTable == run.table
  {
    if !redisUp {
      return RetryRequested;
    }
    var records := queue.LRange();
    if records == [] {
      return Acked([]);
    }
    var committed := db.MarkRead(AckKeys(records), sqlUp);
    if !committed {
      return RetryRequested;
    }
    var raised := RemoveRecords(queue, records, lremFailsAt);
    r := if raised then Raised else Acked(records);
  }

  // ---------------------------------------------------------------------------
  // redis_clear_failed_wheels
  // ---------------------------------------------------------------------------

  /**
   * The reply to the DELETE of one document: whether its response is ok
   * (status below 400), and whether the LREM that follows an ok response went through.
   */
  datatype DeleteReply = DeleteReply(ok: bool, lremOk: bool)

  /** The reply to the DELETE sent for entry `i` of the snapshot. */
  type DeleteOracle = nat -> DeleteReply

  datatype CleanupOutcome = Cleared(ids: seq<Id>) | CleanupRetry

  /** The outcome, the DELETE requests sent (by document id, in order) and the list left behind. */
  datatype CleanupState = CleanupState(outcome: CleanupOutcome, deletes: seq<Id>, queue: seq<Id>)

  /** The ids whose DELETE response was ok, in list order: the task's return value. */
  function ClearedIds(ids: seq<Id>, answer: DeleteOracle): (r: seq<Id>)
    ensures |r| <= |ids|
  {
    if ids == [] then []
    else ClearedIds(ids[..|ids| - 1], answer) + (if answer(|ids| - 1).ok then [ids[|ids| - 1]] else [])
  }

  /** The ids whose DELETE response was ok and whose LREM then went through. */
  function RemovedIds(ids: seq<Id>, answer: DeleteOracle): (r: seq<Id>)
    ensures |r| <= |ClearedIds(ids, answer)|
  {
    if ids == [] then []
    else
      var reply := answer(|ids| - 1);
      RemovedIds(ids[..|ids| - 1], answer) + (if reply.ok && reply.lremOk then [ids[|ids| - 1]] else [])
  }

  lemma ClearStep(ids: seq<Id>, i: nat, answer: DeleteOracle)
    requires i < |ids|
    ensures ClearedIds(ids[..i + 1], answer) == ClearedIds(ids[..i], answer) + (if answer(i).ok then [ids[i]] else [])
    ensures RemovedIds(ids[..i + 1], answer)
         == RemovedIds(ids[..i], answer) + (if answer(i).ok && answer(i).lremOk then [ids[i]] else [])
    ensures ids[..i + 1] == ids[..i] + [ids[i]]
  {
    assert ids[..i + 1][..i] == ids[..i];
  }

  /** The whole run on the failed-wheels list `queue`; `redisUp` says whether LRANGE succeeds. */
  function ClearRun(queue: seq<Id>, redisUp: bool, answer: DeleteOracle): (run: CleanupState)
    ensures run.outcome.Cleared? <==> redisUp
    ensures !redisUp ==> run.deletes == [] && run.queue == queue
    ensures forall x :: x in run.queue ==> x in queue
  {
    if !redisUp then CleanupState(CleanupRetry, [], queue)
    else if queue == [] then CleanupState(Cleared([]), [], queue)
    else CleanupState(Cleared(ClearedIds(queue, answer)), queue, RemoveEach(queue, RemovedIds(queue, answer)))
  }

  /** An id is reported cleared exactly when one of its DELETEs got an ok response. */
  lemma {:induction false} ClearedExactly(ids: seq<Id>, answer: DeleteOracle, x: Id)
    ensures x in ClearedIds(ids, answer) <==> exists i :: 0 <= i < |ids| && ids[i] == x && answer(i).ok
  {
    if ids != [] {
      var init := ids[..|ids| - 1];
      ClearedExactly(init, answer, x);
      assert forall i :: 0 <= i < |init| ==> init[i] == ids[i];
    }
  }

  /** An id is removed from the list exactly when one of its DELETEs got an ok response and the LREM after it went through. */
  lemma {:induction false} RemovedExactly(ids: seq<Id>, answer: DeleteOracle, x: Id)
    ensures x in RemovedIds(ids, answer) <==>
      exists i :: 0 <= i < |ids| && ids[i] == x && answer(i).ok && answer(i).lremOk
  {
    if ids != [] {
      var init := ids[..|ids| - 1];
      RemovedExactly(init, answer, x);
      assert forall i :: 0 <= i < |init| ==> init[i] == ids[i];
    }
  }

  /**
   * Partial progress is kept: an id stays on the failed-wheels list exactly when
   * it was there and none of its entries had both its DELETE and its LREM succeed.
   */
  lemma StaysQueuedExactly(queue: seq<Id>, answer: DeleteOracle, x: Id)
    ensures x in ClearRun(queue, true, answer).queue <==>
      x in queue && forall i :: 0 <= i < |queue| && queue[i] == x ==> !(answer(i).ok && answer(i).lremOk)
  {
    RemovedExactly(queue, answer, x);
  }

  /** A DELETE is sent for every entry of the snapshot, in order, and a failure does not stop the loop. */
  lemma EveryEntryDeleted(queue: seq<Id>, answer: DeleteOracle)
    ensures ClearRun(queue, true, answer).deletes == queue
    ensures ClearRun(queue, true, answer).outcome == Cleared(ClearedIds(queue, answer))
  {
  }

  lemma {:induction false} RemovedAllWhenAllOk(ids: seq<Id>, answer: DeleteOracle)
    requires forall i :: 0 <= i < |ids| ==> answer(i).ok && answer(i).lremOk
    ensures RemovedIds(ids, answer) == ids && ClearedIds(ids, answer) == ids
  {
    if ids != [] {
      var init := ids[..|ids| - 1];
      RemovedAllWhenAllOk(init, answer);
      assert init + [ids[|ids| - 1]] == ids;
    }
  }

  /** When every DELETE and LREM succeeds, every id is reported and the list is drained. */
  lemma CleanupAllOk(queue: seq<Id>, answer: DeleteOracle)
    requires forall i :: 0 <= i < |queue| ==> answer(i).ok && answer(i).lremOk
    ensures ClearRun(queue, true, answer) == CleanupState(Cleared(queue), queue, [])
  {
    RemovedAllWhenAllOk(queue, answer);
    DrainSnapshot(queue, queue);
    if queue == [] {
      RemoveEachFromEmpty<Id>([]);
    }
  }

  lemma SecondDeleteFailsIds(a: Id, b: Id, c: Id, answer: DeleteOracle)
    requires answer(0).ok && answer(0).lremOk && !answer(1).ok && answer(2).ok && answer(2).lremOk
    ensures ClearedIds([a, b, c], answer) == [a, c] && RemovedIds([a, b, c], answer) == [a, c]
  {
    FirstTwoDeletes(a, b, answer);
    var s2, s3 := [a, b], [a, b, c];
    assert s3[..2] == s2;
    assert ClearedIds(s3, answer) == ClearedIds(s2, answer) + [c];
    assert RemovedIds(s3, answer) == RemovedIds(s2, answer) + [c];
  }

  lemma FirstTwoDeletes(a: Id, b: Id, answer: DeleteOracle)
    requires answer(0).ok && answer(0).lremOk && !answer(1).ok
    ensures ClearedIds([a, b], answer) == [a] && RemovedIds([a, b], answer) == [a]
  {
    var s1, s2 := [a], [a, b];
    assert s1[..0] == [] && s2[..1] == s1;
    assert ClearedIds(s1, answer) == [a] && RemovedIds(s1, answer) == [a];
    assert ClearedIds(s2, answer) == ClearedIds(s1, answer) + [];
    assert RemovedIds(s2, answer) == RemovedIds(s1, answer) + [];
  }

  lemma SecondDeleteFailsQueue(a: Id, b: Id, c: Id)
    requires a != b && b != c && a != c
    ensures RemoveEach([a, b, c], [a, c]) == [b]
  {
    var q := [a, b, c];
    RemoveEachSnoc(q, [], a);
    RemoveEachSnoc(q, [a], c);
    assert [] + [a] == [a] && [a] + [c] == [a, c];
    assert q[1..] == [b, c] && [b, c][1..] == [c] && [c][1..] == [];
    RemoveAbsentIsNoop([b, c], a);
    assert RemoveAll(q, a) == [b, c];
    assert RemoveAll([b, c], c) == [b];
  }

  /** Three distinct staged ids whose second DELETE fails: the first and third are cleared, the second stays. */
  lemma SecondDeleteFails(a: Id, b: Id, c: Id, answer: DeleteOracle)
    requires a != b && b != c && a != c
    requires answer(0).ok && answer(0).lremOk && !answer(1).ok && answer(2).ok && answer(2).lremOk
    ensures ClearRun([a, b, c], true, answer) == CleanupState(Cleared([a, c]), [a, b, c], [b])
  {
    SecondDeleteFailsIds(a, b, c, answer);
    SecondDeleteFailsQueue(a, b, c);
  }

  /** `redis_clear_failed_wheels` on the failed-wheels list; `deletes` are the DELETE requests sent. */
  method RedisClearFailedWheels(queue: RedisList<Id>, redisUp: bool, answer: DeleteOracle)
    returns (r: CleanupOutcome, deletes: seq<Id>)
    modifies queue
    ensures ClearRun(old(queue.items), redisUp, answer) == CleanupState(r, deletes, queue.items)
  {
    if !redisUp {
      return CleanupRetry, [];
    }
    var failed := queue.LRange();
    if failed == [] {
      return Cleared([]), [];
    }
    var cleared;
    cleared, deletes := ClearEntries(queue, failed, answer);
    r := Cleared(cleared);
  }

  /** The loop over the snapshot `failed`: one DELETE per entry, and an LREM after each ok one. */
  method ClearEntries(queue: RedisList<Id>, failed: seq<Id>, answer: DeleteOracle)
    returns (cleared: seq<Id>, deletes: seq<Id>)
    requires queue.items == failed
    modifies queue
    ensures cleared == ClearedIds(failed, answer)
    ensures deletes == failed
    ensures queue.items == RemoveEach(failed, RemovedIds(failed, answer))
  {
    cleared := [];
    deletes := [];
    var i := 0;
    assert failed[..0] == [];
    while i < |failed|
      invariant 0 <= i <= |failed|
      invariant deletes == failed[..i]
      invariant cleared == ClearedIds(failed[..i], answer)
      invariant queue.items == RemoveEach(failed, RemovedIds(failed[..i], answer))
    {
      var ok := ClearEntry(queue, failed, i, answer);
      deletes := deletes + [failed[i]];
      if ok {
        cleared := cleared + [failed[i]];
      }
      i := i + 1;
    }
    assert failed[..i] == failed;
  }


  /** One iteration of the cleanup loop: the DELETE of entry `i`, then on an ok response its LREM. */
  method ClearEntry(queue: RedisList<Id>, failed: seq<Id>, i: nat, answer: DeleteOracle) returns (ok: bool)
    requires i < |failed|
    requires queue.items == RemoveEach(failed, RemovedIds(failed[..i], answer))
    modifies queue
    ensures ok == answer(i).ok
    ensures ClearedIds(failed[..i + 1], answer) == ClearedIds(failed[..i], answer) + (if ok then [failed[i]] else [])
    ensures failed[..i + 1] == failed[..i] + [failed[i]]
    ensures queue.items == RemoveEach(failed, RemovedIds(failed[..i + 1], answer))
  {
    var reply := answer(i);
    ClearStep(failed, i, answer);
    ghost var before := RemovedIds(failed[..i], answer);
    ok := reply.ok;
    if reply.ok && reply.lremOk {
      var removed := queue.LRem(failed[i]);
      RemoveEachSnoc(failed, before, failed[i]);
    } else {
      assert before + [] == before;
    }
  }
}
