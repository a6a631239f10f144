/**
 * The reverse synchronisation of celery/mongo_sql_transfer.py: every wheel the
 * document store lists as not yet transferred gets an audit row in the write
 * table (unless one with its natural key exists) and is then marked transferred
 * with a PATCH.
 */
module ReverseSync {
  import opened Wrappers
  import opened Ledger

  /**
   * What the environment answers for the `i`-th listed wheel: whether the
   * existence check and the insert reach the store, whether the PATCH raises
   * (a timeout, a refused connection), and otherwise whether its response is
   * ok (status below 400).
   */
  datatype ItemReply = ItemReply(checkUp: bool, insertUp: bool, patchRaises: bool, patchOk: bool)

  type ReplyOracle = nat -> ItemReply

  /** The clock reading taken for the `i`-th listed wheel. */
  type Clock = nat -> Timestamp

  /**
   * How the insert call is read: as written it passes four arguments to a
   * three-parameter function and raises a TypeError; as intended it inserts.
   */
  datatype InsertReading = AsWritten | Intended

  datatype ReverseError =
    | ConnectFailed
    | FetchFailed
    | CheckFailed
    | InsertFailed(cause: SqlError)
    | InsertArityError
    | PatchRaised

  /**
   * The loop's state: the audit table, how many listed wheels have had their
   * PATCH answered, and the error that ended the run, if any.
   */
  datatype RunState = RunState(audit: seq<AuditRow>, processed: nat, error: Option<ReverseError>)

  /** What the task returns, or the exception it raises. */
  datatype ReverseResult = Finished(transferred: seq<Id>, failed: seq<Id>) | Aborted(error: ReverseError)

  // ---------------------------------------------------------------------------
  // The id lists
  // ---------------------------------------------------------------------------

  /** The answered PATCH requests for `items`, by document id, in order. */
  function PatchIds(items: seq<Item>): seq<Id> {
    seq(|items|, j requires 0 <= j < |items| => items[j].id)
  }

  /** `transferred_wheels`: the ids whose PATCH response was ok, in order. */
  function TransferredIds(items: seq<Item>, reply: ReplyOracle): seq<Id> {
    if items == [] then []
    else
      var n := |items| - 1;
      TransferredIds(items[..n], reply) + (if reply(n).patchOk then [items[n].id] else [])
  }

  /** `failed_wheels`: the ids whose PATCH response was not ok, in order. */
  function FailedIds(items: seq<Item>, reply: ReplyOracle): seq<Id> {
    if items == [] then []
    else
      var n := |items| - 1;
      FailedIds(items[..n], reply) + (if reply(n).patchOk then [] else [items[n].id])
  }

  lemma {:induction false} TransferredExactly(items: seq<Item>, reply: ReplyOracle, x: Id)
    ensures x in TransferredIds(items, reply) <==>
      exists j :: 0 <= j < |items| && items[j].id == x && reply(j).patchOk
  {
    if items != [] {
      var prefix := items[..|items| - 1];
      TransferredExactly(prefix, reply, x);
      assert forall j :: 0 <= j < |prefix| ==> prefix[j] == items[j];
    }
  }

  lemma {:induction false} FailedExactly(items: seq<Item>, reply: ReplyOracle, x: Id)
    ensures x in FailedIds(items, reply) <==>
      exists j :: 0 <= j < |items| && items[j].id == x && !reply(j).patchOk
  {
    if items != [] {
      var n := |items| - 1;
      var prefix := items[..n];
      FailedExactly(prefix, reply, x);
      assert forall j :: 0 <= j < n ==> prefix[j] == items[j];
      assert x in FailedIds(items, reply) <==>
        x in FailedIds(prefix, reply) || (!reply(n).patchOk && x == items[n].id);
    }
  }

  /** Every patched wheel lands on exactly one of the two lists. */
  lemma {:induction false} ListsPartitionPatches(items: seq<Item>, reply: ReplyOracle)
    ensures |TransferredIds(items, reply)| + |FailedIds(items, reply)| == |items|
  {
    if items != [] {
      ListsPartitionPatches(items[..|items| - 1], reply);
    }
  }

  lemma IdListsSnoc(items: seq<Item>, i: nat, reply: ReplyOracle)
    requires i < |items|
    ensures TransferredIds(items[..i + 1], reply)
         == TransferredIds(items[..i], reply) + (if reply(i).patchOk then [items[i].id] else [])
    ensures FailedIds(items[..i + 1], reply)
         == FailedIds(items[..i], reply) + (if reply(i).patchOk then [] else [items[i].id])
    ensures PatchIds(items[..i + 1]) == PatchIds(items[..i]) + [items[i].id]
  {
    assert items[..i + 1][..i] == items[..i];
  }

  // ---------------------------------------------------------------------------
  // The loop
  // ---------------------------------------------------------------------------

  /**
   * The existence check and, for a wheel with no row yet, the insert: the audit
   * table afterwards, or the error the task raises.
   */
  function Record(audit: seq<AuditRow>, i: nat, item: Item, reading: InsertReading, reply: ReplyOracle,
                  clock: Clock): (r: Result<seq<AuditRow>, ReverseError>)
    ensures r.Success? ==> audit <= r.value && HasKey(r.value, KeyOf(item.sqlData))
  {
    if !reply(i).checkUp then Failure(CheckFailed)
    else if HasKey(audit, KeyOf(item.sqlData)) then Success(audit)
    else if reading.AsWritten? then Failure(InsertArityError)
    else
      match BuildAuditRow(item, clock(i))
      case Failure(e) => Failure(InsertFailed(e))
      case Success(row) =>
        if reply(i).insertUp then
          assert row in audit + [row];
          Success(audit + [row])
        else Failure(InsertFailed(StoreUnavailable))
  }

  /**
   * One iteration of the loop, on the `i`-th listed wheel; an earlier error
   * ends the run. A PATCH that raises ends it too, and the audit row already
   * committed for the wheel stays.
   */
  function ItemStep(s: RunState, i: nat, item: Item, reading: InsertReading, reply: ReplyOracle,
                    clock: Clock): (r: RunState)
    ensures s.error.Some? ==> r == s
    ensures s.audit <= r.audit
    ensures s.processed <= r.processed <= s.processed + 1
    ensures r.processed == s.processed + 1 <==> r.error.None?
    ensures r.processed == s.processed + 1 ==> HasKey(r.audit, KeyOf(item.sqlData)) && !reply(i).patchRaises
  {
    if s.error.Some? then s
    else
      match Record(s.audit, i, item, reading, reply, clock)
      case Failure(e) => s.(error := Some(e))
      case Success(audit) =>
        if reply(i).patchRaises then RunState(audit, s.processed, Some(PatchRaised))
        else RunState(audit, s.processed + 1, None)
  }

  /**
   * The loop over the listed wheels, starting from the audit table `audit`:
   * the wheels are processed in order, and only an error stops it early.
   */
  function Steps(audit: seq<AuditRow>, items: seq<Item>, reading: InsertReading, reply: ReplyOracle,
                 clock: Clock): (s: RunState)
    ensures s.processed <= |items|
    ensures s.error.None? <==> s.processed == |items|
  {
    if items == [] then RunState(audit, 0, None)
    else
      var n := |items| - 1;
      ItemStep(Steps(audit, items[..n], reading, reply, clock), n, items[n], reading, reply, clock)
  }

  /** The whole task: the connection, the listing GET, then the loop. */
  function ReverseRun(audit: seq<AuditRow>, items: seq<Item>, reading: InsertReading, connectUp: bool,
                      fetchOk: bool, reply: ReplyOracle, clock: Clock): (s: RunState)
    ensures s.processed <= |items|
    ensures !connectUp || !fetchOk ==> s.audit == audit && s.processed == 0 && s.error.Some?
  {
    if !connectUp then RunState(audit, 0, Some(ConnectFailed))
    else if !fetchOk then RunState(audit, 0, Some(FetchFailed))
    else Steps(audit, items, reading, reply, clock)
  }

  /** The task's outcome for a run that processed the first `s.processed` listed wheels. */
  function ResultOf(items: seq<Item>, reply: ReplyOracle, s: RunState): ReverseResult
    requires s.processed <= |items|
  {
    if s.error.Some? then Aborted(s.error.value)
    else Finished(TransferredIds(items[..s.processed], reply), FailedIds(items[..s.processed], reply))
  }

  lemma StepsSnoc(audit: seq<AuditRow>, items: seq<Item>, i: nat, reading: InsertReading,
                  reply: ReplyOracle, clock: Clock)
    requires i < |items|
    ensures Steps(audit, items[..i + 1], reading, reply, clock)
         == ItemStep(Steps(audit, items[..i], reading, reply, clock), i, items[i], reading, reply, clock)
  {
    assert items[..i + 1][..i] == items[..i];
  }

  /** Once a wheel raised, the remaining wheels are not processed. */
  lemma {:induction false} StepsAbsorb(audit: seq<AuditRow>, items: seq<Item>, k: nat, reading: InsertReading,
                                       reply: ReplyOracle, clock: Clock)
    requires k <= |items|
    requires Steps(audit, items[..k], reading, reply, clock).error.Some?
    ensures Steps(audit, items, reading, reply, clock) == Steps(audit, items[..k], reading, reply, clock)
    decreases |items| - k
  {
    if k < |items| {
      StepsSnoc(audit, items, k, reading, reply, clock);
      StepsAbsorb(audit, items, k + 1, reading, reply, clock);
    } else {
      assert items[..k] == items;
    }
  }

  /** No two audit rows share a natural key. */
  ghost predicate UniqueKeys(audit: seq<AuditRow>) {
    forall i, j :: 0 <= i < j < |audit| ==> AuditKey(audit[i]) != AuditKey(audit[j])
  }

  // ---------------------------------------------------------------------------
  // The audit table
  // ---------------------------------------------------------------------------

  lemma HasKeyGrows(audit: seq<AuditRow>, more: seq<AuditRow>, key: NaturalKey)
    requires audit <= more && HasKey(audit, key)
    ensures HasKey(more, key)
  {
    var a :| a in audit && AuditKey(a) == key;
    var i :| 0 <= i < |audit| && audit[i] == a;
    assert more[i] == a;
  }

  /**
   * The table only grows, and a wheel is marked transferred only once a row
   * with its natural key is in the table.
   */
  lemma {:induction false} PatchedHaveRecord(audit: seq<AuditRow>, items: seq<Item>, reading: InsertReading,
                                             reply: ReplyOracle, clock: Clock)
    ensures var s := Steps(audit, items, reading, reply, clock);
      && audit <= s.audit
      && forall j :: 0 <= j < s.processed ==> HasKey(s.audit, KeyOf(items[j].sqlData))
  {
    if items != [] {
      var n := |items| - 1;
      var prefix := items[..n];
      var s0 := Steps(audit, prefix, reading, reply, clock);
      var s := Steps(audit, items, reading, reply, clock);
      PatchedHaveRecord(audit, prefix, reading, reply, clock);
      if s0.error.None? && Record(s0.audit, n, items[n], reading, reply, clock).Success? {
        forall j | 0 <= j < s.processed
          ensures HasKey(s.audit, KeyOf(items[j].sqlData))
        {
          if j < n {
            assert prefix[j] == items[j];
            HasKeyGrows(s0.audit, s.audit, KeyOf(items[j].sqlData));
          }
        }
      } else {
        assert forall j :: 0 <= j < s0.processed ==> prefix[j] == items[j];
      }
    }
  }

  /** The existence check keeps the table free of duplicate natural keys. */
  lemma {:induction false} AuditKeysStayUnique(audit: seq<AuditRow>, items: seq<Item>, reading: InsertReading,
                                               reply: ReplyOracle, clock: Clock)
    requires UniqueKeys(audit)
    ensures UniqueKeys(Steps(audit, items, reading, reply, clock).audit)
  {
    if items != [] {
      var n := |items| - 1;
      var s0 := Steps(audit, items[..n], reading, reply, clock);
      var s := Steps(audit, items, reading, reply, clock);
      AuditKeysStayUnique(audit, items[..n], reading, reply, clock);
      if s.audit != s0.audit {
        var row := BuildAuditRow(items[n], clock(n)).value;
        assert s.audit == s0.audit + [row];
        assert !HasKey(s0.audit, AuditKey(row));
        forall i | 0 <= i < |s0.audit|
          ensures AuditKey(s.audit[i]) != AuditKey(row)
        {
          assert s0.audit[i] in s0.audit;
        }
      }
    }
  }

  /**
   * With the insert as intended: when every check and insert reaches the store,
   * no PATCH raises and every status is known, each listed wheel is processed.
   */
  lemma {:induction false} CompletesWhenStoresUp(audit: seq<AuditRow>, items: seq<Item>, reply: ReplyOracle,
                                                 clock: Clock)
    requires forall j :: 0 <= j < |items| ==> reply(j).checkUp && reply(j).insertUp && !reply(j).patchRaises
    requires forall j :: 0 <= j < |items| ==> items[j].status in {"laboratory", "shipped", "rejected"}
    ensures Steps(audit, items, Intended, reply, clock).error.None?
  {
    if items != [] {
      var n := |items| - 1;
      CompletesWhenStoresUp(audit, items[..n], reply, clock);
    }
  }

  /** Wheels whose rows are all in the table already add nothing to it. */
  lemma {:induction false} KnownWheelsInsertNothing(audit: seq<AuditRow>, items: seq<Item>, reading: InsertReading,
                                                    reply: ReplyOracle, clock: Clock)
    requires forall j :: 0 <= j < |items| ==> HasKey(audit, KeyOf(items[j].sqlData))
    ensures Steps(audit, items, reading, reply, clock).audit == audit
  {
    if items != [] {
      var n := |items| - 1;
      KnownWheelsInsertNothing(audit, items[..n], reading, reply, clock);
    }
  }

  /**
   * With the insert as intended: observing the same wheels again after a
   * complete run inserts no second row for any of them.
   */
  lemma SecondRunInsertsNothing(audit: seq<AuditRow>, items: seq<Item>, reply: ReplyOracle,
                                again: ReplyOracle, clock: Clock, later: Clock)
    requires Steps(audit, items, Intended, reply, clock).error.None?
    ensures var first := Steps(audit, items, Intended, reply, clock);
      Steps(first.audit, items, Intended, again, later).audit == first.audit
  {
    var first := Steps(audit, items, Intended, reply, clock);
    PatchedHaveRecord(audit, items, Intended, reply, clock);
    KnownWheelsInsertNothing(first.audit, items, Intended, again, later);
  }

  // ---------------------------------------------------------------------------
  // The insert call as written
  // ---------------------------------------------------------------------------

  /** As written, the loop never adds an audit row. */
  lemma {:induction false} AsWrittenNeverInserts(audit: seq<AuditRow>, items: seq<Item>, reply: ReplyOracle,
                                                 clock: Clock)
    ensures Steps(audit, items, AsWritten, reply, clock).audit == audit
  {
    if items != [] {
      var n := |items| - 1;
      AsWrittenNeverInserts(audit, items[..n], reply, clock);
    }
  }

  /** As written, a wheel with no audit row makes the task raise before its PATCH. */
  lemma AsWrittenRaisesOnNewWheel(audit: seq<AuditRow>, item: Item, reply: ReplyOracle, clock: Clock)
    requires !HasKey(audit, KeyOf(item.sqlData)) && reply(0).checkUp
    ensures ReverseRun(audit, [item], AsWritten, true, true, reply, clock)
         == RunState(audit, 0, Some(InsertArityError))
  {
    OneItemRun(audit, item, AsWritten, reply, clock);
  }

  /** As intended, the same wheel gets its row and is reported transferred. */
  lemma IntendedInsertsNewWheel(audit: seq<AuditRow>, item: Item, reply: ReplyOracle, clock: Clock)
    requires !HasKey(audit, KeyOf(item.sqlData))
    requires reply(0).checkUp && reply(0).insertUp && !reply(0).patchRaises && reply(0).patchOk
    requires item.status in {"laboratory", "shipped", "rejected"}
    ensures BuildAuditRow(item, clock(0)).Success?
    ensures ReverseRun(audit, [item], Intended, true, true, reply, clock)
         == RunState(audit + [BuildAuditRow(item, clock(0)).value], 1, None)
    ensures ResultOf([item], reply, ReverseRun(audit, [item], Intended, true, true, reply, clock))
         == Finished([item.id], [])
  {
    var row := BuildAuditRow(item, clock(0)).value;
    OneItemRun(audit, item, Intended, reply, clock);
    assert Record(audit, 0, item, Intended, reply, clock) == Success(audit + [row]);
    OneItemLists(item, reply);
  }

  /**
   * With the insert as intended, a PATCH that raises on a wheel with no audit
   * row aborts the run and leaves the row it just inserted committed.
   */
  lemma PatchRaiseKeepsRecord(audit: seq<AuditRow>, item: Item, reply: ReplyOracle, clock: Clock)
    requires !HasKey(audit, KeyOf(item.sqlData))
    requires reply(0).checkUp && reply(0).insertUp && reply(0).patchRaises
    requires item.status in {"laboratory", "shipped", "rejected"}
    ensures BuildAuditRow(item, clock(0)).Success?
    ensures var s := ReverseRun(audit, [item], Intended, true, true, reply, clock);
      s == RunState(audit + [BuildAuditRow(item, clock(0)).value], 0, Some(PatchRaised)) &&
      ResultOf([item], reply, s) == Aborted(PatchRaised)
  {
    var row := BuildAuditRow(item, clock(0)).value;
    OneItemRun(audit, item, Intended, reply, clock);
    assert Record(audit, 0, item, Intended, reply, clock) == Success(audit + [row]);
  }

  /** The loop over one listed wheel is one step from the empty state. */
  lemma OneItemRun(audit: seq<AuditRow>, item: Item, reading: InsertReading, reply: ReplyOracle, clock: Clock)
    ensures Steps(audit, [item], reading, reply, clock) == ItemStep(RunState(audit, 0, None), 0, item, reading, reply, clock)
  {
    var one := [item];
    assert one[..0] == [];
    assert Steps(audit, one[..0], reading, reply, clock) == RunState(audit, 0, None);
  }

  lemma OneItemLists(item: Item, reply: ReplyOracle)
    requires reply(0).patchOk
    ensures [item][..1] == [item]
    ensures TransferredIds([item], reply) == [item.id] && FailedIds([item], reply) == []
  {
    var one := [item];
    assert one[..0] == [];
    assert TransferredIds(one[..0], reply) == [] && FailedIds(one[..0], reply) == [];
  }

  // ---------------------------------------------------------------------------
  // The task
  // ---------------------------------------------------------------------------

  /**
   * transfer_wheels_mongo, with the insert call as intended: `items` is the
   * listing the GET returns, `patches` the PATCH requests answered.
   */
  method TransferWheelsMongo(db: Database, items: seq<Item>, connectUp: bool, fetchOk: bool,
                             reply: ReplyOracle, clock: Clock)
    returns (r: ReverseResult, patches: seq<Id>)
    modifies db`writeTable
    ensures var s := ReverseRun(old(db.writeTable), items, Intended, connectUp, fetchOk, reply, clock);
      r == ResultOf(items, reply, s) && patches == PatchIds(items[..s.processed]) && db.writeTable == s.audit
  {
    if !connectUp {
      return Aborted(ConnectFailed), [];
    }
    if !fetchOk {
      return Aborted(FetchFailed), [];
    }
    ghost var audit0 := db.writeTable;
    var transferred: seq<Id> := [];
    var failed: seq<Id> := [];
    patches := [];
    var i := 0;
    assert items[..0] == [];
    while i < |items|
      invariant 0 <= i <= |items|
      invariant Steps(audit0, items[..i], Intended, reply, clock) == RunState(db.writeTable, i, None)
      invariant transferred == TransferredIds(items[..i], reply) && failed == FailedIds(items[..i], reply)
      invariant patches == PatchIds(items[..i])
    {
      var item := items[i];
      StepsSnoc(audit0, items, i, Intended, reply, clock);
      IdListsSnoc(items, i, reply);
      var err := TransferItem(db, i, item, reply, clock);
      if err.Some? {
        StepsAbsorb(audit0, items, i + 1, Intended, reply, clock);
        return Aborted(err.value), patches;
      }
      patches := patches + [item.id];
      if reply(i).patchOk {
        transferred := transferred + [item.id];
      } else {
        failed := failed + [item.id];
      }
      i := i + 1;
    }
    assert items[..i] == items;
    r := Finished(transferred, failed);
  }

  /**
   * One iteration of the loop on the `i`-th listed wheel: the existence check,
   * the insert when no row has its key, then the PATCH; `err` is what it raised.
   */
  method TransferItem(db: Database, i: nat, item: Item, reply: ReplyOracle, clock: Clock)
    returns (err: Option<ReverseError>)
    modifies db`writeTable
    ensures ItemStep(RunState(old(db.writeTable), i, None), i, item, Intended, reply, clock)
         == RunState(db.writeTable, if err.None? then i + 1 else i, err)
  {
    var answer := reply(i);
    var found := db.CheckTransferRecord(item, answer.checkUp);
    if found.Failure? {
      return Some(CheckFailed);
    }
    if found.value == [] {
      var created := db.CreateTransferRecord(item, clock(i), answer.insertUp);
      if created.Failure? {
        return Some(InsertFailed(created.error));
      }
    }
    if answer.patchRaises {
      return Some(PatchRaised);
    }
    err := None;
  }
}
