/**
 * The relational ledger of celery/wheels_actions.py: the read table of scan
 * events, the write table of audit rows, the status translation used when an
 * audit row is inserted, and the queries the tasks run against both tables.
 */
module Ledger {
  import opened Wrappers

  /** Clock readings and stored timestamps are opaque values. */
  type Timestamp = string

  /** An identifier generated by the document store (`_id`). */
  type Id = string

  /** One row of the read table, with the columns selected by get_wheels_data. */
  datatype LedgerRow = LedgerRow(
    orderNo: string,
    year: int,
    productId: string,
    markedPartNo: string,
    shuttleNumber: int,
    stackNumber: int,
    numberInStack: int,
    timestampSubmit: Timestamp,
    mark: int)

  /** The compound natural key `(order_no, year, product_ID, marked_part_no)`. */
  datatype NaturalKey = NaturalKey(orderNo: string, year: int, productId: string, markedPartNo: string)

  function KeyOf(r: LedgerRow): NaturalKey {
    NaturalKey(r.orderNo, r.year, r.productId, r.markedPartNo)
  }

  /** The `wheelStack` reference of a document-store wheel; a null reference is `None`. */
  datatype StackRef = StackRef(wheelStackPosition: int)

  /** A document-store wheel as the transfer listing returns it (with its `sqlData` copy). */
  datatype Item = Item(id: Id, status: string, wheelStack: Option<StackRef>, sqlData: LedgerRow)

  /** One row of the write (audit) table, the eleven columns of the INSERT. */
  datatype AuditRow = AuditRow(
    orderNo: string,
    year: int,
    productId: string,
    markedPartNo: string,
    numberVirtualPosition: int,
    numberInStack: int,
    timestampSubmit: Timestamp,
    orderStatus: int,
    productState: int,
    rwRecipeId: int,
    mark: int)

  function AuditKey(a: AuditRow): NaturalKey {
    NaturalKey(a.orderNo, a.year, a.productId, a.markedPartNo)
  }

  /** A raised store error: the connection failed, or a status had no code. */
  datatype SqlError = StoreUnavailable | UnknownStatus(status: string)

  // ---------------------------------------------------------------------------
  // Pending read
  // ---------------------------------------------------------------------------

  /** The rows that `SELECT ... WHERE mark = 0` returns, in table order. */
  function Pending(table: seq<LedgerRow>): (r: seq<LedgerRow>)
    ensures |r| <= |table|
    ensures forall i :: 0 <= i < |r| ==> r[i].mark == 0
    ensures forall x :: x in table && x.mark == 0 ==> x in r
    ensures forall x :: x in r ==> x in table
  {
    if table == [] then []
    else (if table[0].mark == 0 then [table[0]] else []) + Pending(table[1..])
  }

  /** The pending rows, each with `timestamp_submit` replaced by the one time of the read. */
  function ReadPending(table: seq<LedgerRow>, readTime: Timestamp): seq<LedgerRow> {
    var p := Pending(table);
    seq(|p|, i requires 0 <= i < |p| => p[i].(timestampSubmit := readTime))
  }

  /**
   * The read keeps table order and multiplicity: reading two parts of the
   * table is reading each part in turn.
   */
  lemma {:induction false} PendingAppend(a: seq<LedgerRow>, b: seq<LedgerRow>)
    ensures Pending(a + b) == Pending(a) + Pending(b)
  {
    if a == [] {
      assert a + b == b;
    } else {
      var ab := a + b;
      var tail := a[1..];
      assert ab[0] == a[0];
      assert ab[1..] == tail + b;
      PendingAppend(tail, b);
      calc {
        Pending(ab);
        (if a[0].mark == 0 then [a[0]] else []) + Pending(tail + b);
        (if a[0].mark == 0 then [a[0]] else []) + (Pending(tail) + Pending(b));
        ((if a[0].mark == 0 then [a[0]] else []) + Pending(tail)) + Pending(b);
        Pending(a) + Pending(b);
      }
    }
  }

  /** One row yields itself exactly when it is unconsumed. */
  lemma PendingSingle(x: LedgerRow)
    ensures Pending([x]) == if x.mark == 0 then [x] else []
  {
    var one := [x];
    assert one[1..] == [];
  }

  /** Each unconsumed row is returned as many times as it occurs in the table; no other row is. */
  lemma {:induction false} PendingCounts(table: seq<LedgerRow>, x: LedgerRow)
    ensures multiset(Pending(table))[x] == if x.mark == 0 then multiset(table)[x] else 0
  {
    if table != [] {
      PendingCounts(table[1..], x);
      assert table == [table[0]] + table[1..];
      assert multiset(table) == multiset([table[0]]) + multiset(table[1..]);
      var head := if table[0].mark == 0 then [table[0]] else [];
      assert multiset(Pending(table)) == multiset(head) + multiset(Pending(table[1..]));
    }
  }

  /**
   * get_wheels_data as a whole keeps table order: reading two parts of the
   * table is reading each part in turn.
   */
  lemma ReadPendingAppend(a: seq<LedgerRow>, b: seq<LedgerRow>, readTime: Timestamp)
    ensures ReadPending(a + b, readTime) == ReadPending(a, readTime) + ReadPending(b, readTime)
  {
    PendingAppend(a, b);
    var l := ReadPending(a + b, readTime);
    var r := ReadPending(a, readTime) + ReadPending(b, readTime);
    assert |l| == |r|;
    forall i | 0 <= i < |l| ensures l[i] == r[i] {
      if i < |Pending(a)| {
        assert l[i] == Pending(a)[i].(timestampSubmit := readTime);
      } else {
        assert l[i] == Pending(b)[i - |Pending(a)|].(timestampSubmit := readTime);
      }
    }
  }

  /** One row yields itself, re-stamped, exactly when it is unconsumed. */
  lemma ReadPendingSingle(x: LedgerRow, readTime: Timestamp)
    ensures ReadPending([x], readTime) == if x.mark == 0 then [x.(timestampSubmit := readTime)] else []
  {
    PendingSingle(x);
  }

  /** What get_wheels_data returns is exactly the unconsumed rows, re-stamped. */
  lemma ReadPendingExactly(table: seq<LedgerRow>, readTime: Timestamp, x: LedgerRow)
    ensures x in ReadPending(table, readTime) <==>
            exists r :: r in table && r.mark == 0 && x == r.(timestampSubmit := readTime)
  {
    var p := Pending(table);
    var rp := ReadPending(table, readTime);
    if x in rp {
      var i :| 0 <= i < |rp| && rp[i] == x;
      assert p[i] in table && p[i].mark == 0;
    }
    if r :| r in table && r.mark == 0 && x == r.(timestampSubmit := readTime) {
      assert r in p;
      var i :| 0 <= i < |p| && p[i] == r;
      assert rp[i] == x;
    }
  }

  // ---------------------------------------------------------------------------
  // Status translation and the audit row
  // ---------------------------------------------------------------------------

  /** `batch_translate`: the `order_status` code of a status. */
  function BatchStatusCode(status: string): Option<int> {
    if status == "laboratory" then Some(0)
    else if status == "shipped" then Some(1)
    else if status == "pto" then Some(2)
    else if status == "rejected" then Some(3)
    else None
  }

  /** `wheel_status_translate`: the `product_state` code of a status; it has no `pto`. */
  function UnitStatusCode(status: string): Option<int> {
    if status == "shipped" then Some(0)
    else if status == "laboratory" then Some(1)
    else if status == "rejected" then Some(2)
    else None
  }

  /** The status an `order_status` code stands for. */
  function BatchStatusName(code: int): Option<string> {
    if code == 0 then Some("laboratory")
    else if code == 1 then Some("shipped")
    else if code == 2 then Some("pto")
    else if code == 3 then Some("rejected")
    else None
  }

  /** The status a `product_state` code stands for. */
  function UnitStatusName(code: int): Option<string> {
    if code == 0 then Some("shipped")
    else if code == 1 then Some("laboratory")
    else if code == 2 then Some("rejected")
    else None
  }

  /**
   * The row sql_create_transfer_record builds, or the KeyError it raises
   * before `execute` when the status is missing from either table.
   */
  function BuildAuditRow(item: Item, timestamp: Timestamp): (r: Result<AuditRow, SqlError>)
    ensures r.Success? <==> item.status in {"laboratory", "shipped", "rejected"}
    ensures r.Failure? ==> r.error == UnknownStatus(item.status)
    ensures r.Success? ==>
      && AuditKey(r.value) == KeyOf(item.sqlData)
      && BatchStatusName(r.value.orderStatus) == Some(item.status)
      && UnitStatusName(r.value.productState) == Some(item.status)
      && r.value.numberInStack == (if item.wheelStack.None? then -1 else item.wheelStack.value.wheelStackPosition)
      && r.value.timestampSubmit == timestamp
      && r.value.numberVirtualPosition == 0 && r.value.rwRecipeId == 0 && r.value.mark == 0
  {
    var batch := BatchStatusCode(item.status);
    var unit := UnitStatusCode(item.status);
    if batch.None? || unit.None? then Failure(UnknownStatus(item.status))
    else
      // A row that left its wheelstack is stored at the sentinel position -1.
      var position := if item.wheelStack.None? then -1 else item.wheelStack.value.wheelStackPosition;
      var d := item.sqlData;
      Success(AuditRow(d.orderNo, d.year, d.productId, d.markedPartNo, 0, position,
                       timestamp, batch.value, unit.value, 0, 0))
  }

  /** The two tables agree on every status; `pto` has a batch code and no unit code. */
  lemma StatusTablesAgree(status: string)
    ensures BatchStatusCode(status).Some? && UnitStatusCode(status).Some? <==>
            status in {"laboratory", "shipped", "rejected"}
    ensures BatchStatusCode("pto") == Some(2) && UnitStatusCode("pto") == None
    ensures forall c :: BatchStatusCode(status) == Some(c) <==> BatchStatusName(c) == Some(status)
    ensures forall c :: UnitStatusCode(status) == Some(c) <==> UnitStatusName(c) == Some(status)
  {
  }

  // ---------------------------------------------------------------------------
  // Existence check
  // ---------------------------------------------------------------------------

  predicate HasKey(audit: seq<AuditRow>, key: NaturalKey) {
    exists a :: a in audit && AuditKey(a) == key
  }

  /** The `order_no` column of the audit rows whose four key fields equal `key`. */
  function OrderNosWithKey(audit: seq<AuditRow>, key: NaturalKey): (r: seq<string>)
    ensures |r| == 0 <==> !HasKey(audit, key)
    ensures forall v :: v in r ==> v == key.orderNo
  {
    if audit == [] then []
    else
      assert forall a :: a in audit <==> a == audit[0] || a in audit[1..];
      (if AuditKey(audit[0]) == key then [audit[0].orderNo] else []) + OrderNosWithKey(audit[1..], key)
  }

  // ---------------------------------------------------------------------------
  // Acknowledgment update
  // ---------------------------------------------------------------------------

  /** The key of the acknowledgment UPDATE: `(order_no, product_ID, marked_part_no)`, no `year`. */
  datatype AckKey = AckKey(orderNo: string, productId: string, markedPartNo: string)

  function AckKeyOf(r: LedgerRow): AckKey {
    AckKey(r.orderNo, r.productId, r.markedPartNo)
  }

  /** One execution of `UPDATE ... SET mark = 1 WHERE <AckKey> AND mark = 0`. */
  function UpdateMark(table: seq<LedgerRow>, key: AckKey): (r: seq<LedgerRow>)
    ensures |r| == |table|
    ensures forall i :: 0 <= i < |table| ==> r[i] == Acknowledged(table[i], [key])
  {
    seq(|table|, i requires 0 <= i < |table| =>
      if table[i].mark == 0 && AckKeyOf(table[i]) == key then table[i].(mark := 1) else table[i])
  }

  /**
   * `executemany`: the statement once per parameter tuple, in order. The batch
   * marks exactly the pending rows whose three key fields were sent.
   */
  function ExecuteMany(table: seq<LedgerRow>, keys: seq<AckKey>): (r: seq<LedgerRow>)
    ensures |r| == |table|
    ensures forall i :: 0 <= i < |table| ==> r[i] == Acknowledged(table[i], keys)
    decreases |keys|
  {
    if keys == [] then table
    else
      assert forall k :: k in keys <==> k == keys[0] || k in keys[1..];
      ExecuteMany(UpdateMark(table, keys[0]), keys[1..])
  }

  /** What one row becomes once every key has been acknowledged. */
  function Acknowledged(row: LedgerRow, keys: seq<AckKey>): LedgerRow {
    if row.mark == 0 && AckKeyOf(row) in keys then row.(mark := 1) else row
  }

  /** Two UPDATEs of the batch commute: the order of the `executemany` tuples does not matter. */
  lemma UpdateMarkCommutes(table: seq<LedgerRow>, k1: AckKey, k2: AckKey)
    ensures UpdateMark(UpdateMark(table, k1), k2) == UpdateMark(UpdateMark(table, k2), k1)
  {
    var a, b := UpdateMark(UpdateMark(table, k1), k2), UpdateMark(UpdateMark(table, k2), k1);
    forall i | 0 <= i < |table| ensures a[i] == b[i] {
      assert UpdateMark(table, k1)[i] == Acknowledged(table[i], [k1]);
      assert UpdateMark(table, k2)[i] == Acknowledged(table[i], [k2]);
    }
  }

  /** Repeating one UPDATE changes nothing: a row it marked no longer has `mark = 0`. */
  lemma UpdateMarkIdempotent(table: seq<LedgerRow>, key: AckKey)
    ensures UpdateMark(UpdateMark(table, key), key) == UpdateMark(table, key)
  {
    var once := UpdateMark(table, key);
    forall i | 0 <= i < |table| ensures UpdateMark(once, key)[i] == once[i] {
      assert once[i] == Acknowledged(table[i], [key]);
    }
  }

  /**
   * The batch depends only on which keys were sent: reordering the parameter
   * tuples or sending one twice gives the same table.
   */
  lemma ExecuteManyOrderFree(table: seq<LedgerRow>, keys: seq<AckKey>, others: seq<AckKey>)
    requires forall k :: k in keys <==> k in others
    ensures ExecuteMany(table, keys) == ExecuteMany(table, others)
  {
    var a, b := ExecuteMany(table, keys), ExecuteMany(table, others);
    forall i | 0 <= i < |table| ensures a[i] == b[i] {
      assert a[i] == Acknowledged(table[i], keys);
      assert b[i] == Acknowledged(table[i], others);
    }
  }

  /** `mark` only ever moves from 0 to 1; every other column and row is unchanged. */
  lemma MarkOnlyFlipsZeroToOne(table: seq<LedgerRow>, keys: seq<AckKey>)
    ensures |ExecuteMany(table, keys)| == |table|
    ensures forall i :: 0 <= i < |table| ==>
      ExecuteMany(table, keys)[i] == table[i] ||
      (table[i].mark == 0 && ExecuteMany(table, keys)[i] == table[i].(mark := 1))
  {
  }

  /** Re-running the acknowledgment with the same keys changes nothing. */
  lemma MarkReadIdempotent(table: seq<LedgerRow>, keys: seq<AckKey>)
    ensures ExecuteMany(ExecuteMany(table, keys), keys) == ExecuteMany(table, keys)
  {
  }

  /** A later batch whose keys were all in an earlier, committed batch changes nothing. */
  lemma MarkReadSubsumed(table: seq<LedgerRow>, keys: seq<AckKey>, again: seq<AckKey>)
    requires forall k :: k in again ==> k in keys
    ensures ExecuteMany(ExecuteMany(table, keys), again) == ExecuteMany(table, keys)
  {
  }

  /**
   * The UPDATE leaves `year` out of its key, so a pending row of another year
   * with the same order, product and part number is marked consumed as well.
   */
  lemma MarkReadIgnoresYear(r: LedgerRow, otherYear: int)
    requires r.mark == 0 && otherYear != r.year
    ensures ExecuteMany([r, r.(year := otherYear)], [AckKeyOf(r)])
         == [r.(mark := 1), r.(year := otherYear, mark := 1)]
  {
  }

  // ---------------------------------------------------------------------------
  // The store
  // ---------------------------------------------------------------------------

  /** The SQL Server database: the read table and the write (audit) table. */
  class Database {
    var readTable: seq<LedgerRow>
    var writeTable: seq<AuditRow>

    constructor (readRows: seq<LedgerRow>, writeRows: seq<AuditRow>)
      ensures readTable == readRows && writeTable == writeRows
    {
      readTable := readRows;
      writeTable := writeRows;
    }

    /** get_wheels_data: the pending rows, each stamped with the one time of the read passed in. */
    method GetWheelsData(readTime: Timestamp) returns (rows: seq<LedgerRow>)
      ensures rows == ReadPending(readTable, readTime)
      ensures forall i :: 0 <= i < |rows| ==> rows[i].mark == 0 && rows[i].timestampSubmit == readTime
    {
      var records := Pending(readTable);
      rows := [];
      var i := 0;
      while i < |records|
        invariant 0 <= i <= |records|
        invariant |rows| == i
        invariant forall k :: 0 <= k < i ==> rows[k] == records[k].(timestampSubmit := readTime)
      {
        rows := rows + [records[i].(timestampSubmit := readTime)];
        i := i + 1;
      }
    }

    /** sql_check_transfer_record: the audit rows with the item's natural key. */
    method CheckTransferRecord(item: Item, storeUp: bool) returns (r: Result<seq<string>, SqlError>)
      ensures r.Success? <==> storeUp
      ensures r.Failure? ==> r.error == StoreUnavailable
      ensures r.Success? ==> (r.value == [] <==> !HasKey(writeTable, KeyOf(item.sqlData)))
      ensures r.Success? ==> forall v :: v in r.value ==> v == item.sqlData.orderNo
    {
      if !storeUp {
        return Failure(StoreUnavailable);
      }
      r := Success(OrderNosWithKey(writeTable, KeyOf(item.sqlData)));
    }

    /** sql_create_transfer_record: insert the audit row and commit. */
    method CreateTransferRecord(item: Item, timestamp: Timestamp, storeUp: bool)
      returns (r: Result<nat, SqlError>)
      modifies this`writeTable
      ensures var built := BuildAuditRow(item, timestamp);
        if built.Failure? then r == Failure(built.error) && writeTable == old(writeTable)
        else if !storeUp then r == Failure(StoreUnavailable) && writeTable == old(writeTable)
        else r == Success(1) && writeTable == old(writeTable) + [built.value]
    {
      var built := BuildAuditRow(item, timestamp);
      if built.Failure? {
        return Failure(built.error);
      }
      if !storeUp {
        return Failure(StoreUnavailable);
      }
      writeTable := writeTable + [built.value];
      r := Success(1);
    }

    /** The acknowledgment batch: `executemany` then `commit`; nothing persists without the commit. */
    method MarkRead(keys: seq<AckKey>, storeUp: bool) returns (committed: bool)
      modifies this`readTable
      ensures committed == storeUp
      ensures readTable == if storeUp then ExecuteMany(old(readTable), keys) else old(readTable)
    {
      committed := storeUp;
      if storeUp {
        readTable := ExecuteMany(readTable, keys);
      }
    }
  }
}
