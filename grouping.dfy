/**
 * The grouping step of sql_transfer_wheels: the pending rows are gathered into
 * the nested dict `wheelstacks_data[shuttle_number][stack_number]`, each entry a
 * 10-slot `originalWheels` list indexed by `number_in_stack`. A Python dict keeps
 * insertion order, so the dicts are association lists in insertion order here;
 * a lookup or an assignment acts on the first entry with the key.
 */
module Grouping {
  import opened Wrappers
  import opened Ledger

  /** The length of every `originalWheels` list. */
  const SLOT_COUNT := 10

  /** An `originalWheels` list: always exactly 10 slots. */
  type Slots = s: seq<Option<LedgerRow>> | |s| == SLOT_COUNT witness seq(SLOT_COUNT, _ => None)

  /** `wheelstacks_data[row][col]`: the column key and its `originalWheels` slots. */
  datatype Stack = Stack(col: int, slots: Slots)

  /** `wheelstacks_data[row]`: the row key and its columns in insertion order. */
  datatype Shuttle = Shuttle(row: int, stacks: seq<Stack>)

  /** `wheelstacks_data`: the rows in insertion order. */
  type Wheelstacks = seq<Shuttle>

  /** One wheelstack group as the two nested loops over `wheelstacks_data` visit it. */
  datatype Group = Group(row: int, col: int, slots: Slots)

  predicate InSlotRange(w: LedgerRow) {
    0 <= w.numberInStack < SLOT_COUNT
  }

  predicate AllInSlotRange(wheels: seq<LedgerRow>) {
    forall i :: 0 <= i < |wheels| ==> InSlotRange(wheels[i])
  }

  /** `[None for _ in range(10)]`. */
  function EmptySlots(): Slots {
    seq(SLOT_COUNT, _ => None)
  }

  // ---------------------------------------------------------------------------
  // The two dict levels as association lists
  // ---------------------------------------------------------------------------

  /** The keys of `wheelstacks_data`, in insertion order. */
  function Rows(ws: Wheelstacks): seq<int> {
    if ws == [] then [] else [ws[0].row] + Rows(ws[1..])
  }

  /** `wheelstacks_data[row]` (empty when the key is absent). */
  function StacksAt(ws: Wheelstacks, row: int): seq<Stack> {
    if ws == [] then [] else if ws[0].row == row then ws[0].stacks else StacksAt(ws[1..], row)
  }

  /** `wheelstacks_data[row] = ss` for a present key. */
  function SetRow(ws: Wheelstacks, row: int, ss: seq<Stack>): Wheelstacks {
    if ws == [] then []
    else if ws[0].row == row then [Shuttle(row, ss)] + ws[1..]
    else [ws[0]] + SetRow(ws[1..], row, ss)
  }

  /** The keys of `wheelstacks_data[row]`, in insertion order. */
  function Cols(ss: seq<Stack>): seq<int> {
    if ss == [] then [] else [ss[0].col] + Cols(ss[1..])
  }

  /** `wheelstacks_data[row][col]['originalWheels']` (all empty when the key is absent). */
  function SlotsAt(ss: seq<Stack>, col: int): Slots {
    if ss == [] then EmptySlots() else if ss[0].col == col then ss[0].slots else SlotsAt(ss[1..], col)
  }

  /** `wheelstacks_data[row][col]['originalWheels'] = slots` for a present key. */
  function SetCol(ss: seq<Stack>, col: int, slots: Slots): seq<Stack> {
    if ss == [] then []
    else if ss[0].col == col then [Stack(col, slots)] + ss[1..]
    else [ss[0]] + SetCol(ss[1..], col, slots)
  }

  /**
   * One pass of the grouping loop: add the row key if new, add the column key
   * with ten empty slots if new, then store the row at slot `number_in_stack`.
   */
  function Place(ws: Wheelstacks, w: LedgerRow): Wheelstacks
    requires InSlotRange(w)
  {
    var row, col := w.shuttleNumber, w.stackNumber;
    var ws1 := if row in Rows(ws) then ws else ws + [Shuttle(row, [])];
    var ss := StacksAt(ws1, row);
    var ss1 := if col in Cols(ss) then ss else ss + [Stack(col, EmptySlots())];
    SetRow(ws1, row, SetCol(ss1, col, SlotsAt(ss1, col)[w.numberInStack := Some(w)]))
  }

  /** `wheelstacks_data` after the grouping loop over `wheels`. */
  function Grouped(wheels: seq<LedgerRow>): Wheelstacks
    requires AllInSlotRange(wheels)
  {
    if wheels == [] then [] else Place(Grouped(wheels[..|wheels| - 1]), wheels[|wheels| - 1])
  }

  /** `wheelstacks_data[row][col]['originalWheels']`, if both keys are present. */
  function Lookup(ws: Wheelstacks, row: int, col: int): Option<Slots> {
    if row in Rows(ws) && col in Cols(StacksAt(ws, row)) then Some(SlotsAt(StacksAt(ws, row), col)) else None
  }

  // ---------------------------------------------------------------------------
  // Reference definitions
  // ---------------------------------------------------------------------------

  predicate Occupies(wheels: seq<LedgerRow>, row: int, col: int) {
    exists k :: 0 <= k < |wheels| && wheels[k].shuttleNumber == row && wheels[k].stackNumber == col
  }

  /** The last row of `wheels` at (row, col, slot): later rows overwrite earlier ones. */
  function LastAt(wheels: seq<LedgerRow>, row: int, col: int, slot: int): (r: Option<LedgerRow>)
    ensures r.Some? ==> r.value in wheels && r.value.shuttleNumber == row &&
                        r.value.stackNumber == col && r.value.numberInStack == slot
  {
    if wheels == [] then None
    else
      var w := wheels[|wheels| - 1];
      if w.shuttleNumber == row && w.stackNumber == col && w.numberInStack == slot then Some(w)
      else LastAt(wheels[..|wheels| - 1], row, col, slot)
  }

  /** No value occurs twice. */
  predicate Distinct(xs: seq<int>) {
    xs == [] || (xs[0] !in xs[1..] && Distinct(xs[1..]))
  }

  lemma {:induction false} DistinctSnoc(xs: seq<int>, x: int)
    requires Distinct(xs) && x !in xs
    ensures Distinct(xs + [x])
  {
    if xs != [] {
      assert (xs + [x])[1..] == xs[1..] + [x];
      DistinctSnoc(xs[1..], x);
    }
  }

  /** The distinct values of `xs`, in order of first appearance. */
  function Dedup(xs: seq<int>): (r: seq<int>)
    ensures forall x :: x in r <==> x in xs
    ensures Distinct(r)
  {
    if xs == [] then []
    else
      var d := Dedup(xs[..|xs| - 1]);
      var x := xs[|xs| - 1];
      assert xs == xs[..|xs| - 1] + [x];
      if x in d then d else DistinctSnoc(d, x); d + [x]
  }

  /** The `shuttle_number`s of the rows, in order. */
  function ShuttleNumbers(wheels: seq<LedgerRow>): seq<int> {
    if wheels == [] then [] else ShuttleNumbers(wheels[..|wheels| - 1]) + [wheels[|wheels| - 1].shuttleNumber]
  }

  /** The `stack_number`s of the rows with `shuttle_number == row`, in order. */
  function StackNumbersIn(wheels: seq<LedgerRow>, row: int): seq<int> {
    if wheels == [] then []
    else
      var w := wheels[|wheels| - 1];
      StackNumbersIn(wheels[..|wheels| - 1], row) + (if w.shuttleNumber == row then [w.stackNumber] else [])
  }

  // ---------------------------------------------------------------------------
  // The association-list operations
  // ---------------------------------------------------------------------------

  lemma {:induction false} RowsSnoc(ws: Wheelstacks, s: Shuttle)
    ensures Rows(ws + [s]) == Rows(ws) + [s.row]
  {
    if ws != [] {
      assert (ws + [s])[1..] == ws[1..] + [s];
      RowsSnoc(ws[1..], s);
    }
  }

  lemma {:induction false} StacksAtSnoc(ws: Wheelstacks, s: Shuttle, row: int)
    ensures StacksAt(ws + [s], row) ==
            if row in Rows(ws) then StacksAt(ws, row) else if row == s.row then s.stacks else []
  {
    if ws != [] {
      assert (ws + [s])[1..] == ws[1..] + [s];
      StacksAtSnoc(ws[1..], s, row);
    }
  }

  lemma {:induction false} StacksAtAbsent(ws: Wheelstacks, row: int)
    requires row !in Rows(ws)
    ensures StacksAt(ws, row) == []
  {
    if ws != [] {
      StacksAtAbsent(ws[1..], row);
    }
  }

  lemma {:induction false} SetRowKeys(ws: Wheelstacks, r: int, ss: seq<Stack>, row: int)
    ensures Rows(SetRow(ws, r, ss)) == Rows(ws)
    ensures StacksAt(SetRow(ws, r, ss), row) == if row == r && r in Rows(ws) then ss else StacksAt(ws, row)
  {
    if ws != [] {
      SetRowKeys(ws[1..], r, ss, row);
    }
  }

  lemma {:induction false} ColsSnoc(ss: seq<Stack>, s: Stack)
    ensures Cols(ss + [s]) == Cols(ss) + [s.col]
  {
    if ss != [] {
      assert (ss + [s])[1..] == ss[1..] + [s];
      ColsSnoc(ss[1..], s);
    }
  }

  lemma {:induction false} SlotsAtSnoc(ss: seq<Stack>, s: Stack, col: int)
    ensures SlotsAt(ss + [s], col) ==
            if col in Cols(ss) then SlotsAt(ss, col) else if col == s.col then s.slots else EmptySlots()
  {
    if ss != [] {
      assert (ss + [s])[1..] == ss[1..] + [s];
      SlotsAtSnoc(ss[1..], s, col);
    }
  }

  lemma {:induction false} SlotsAtAbsent(ss: seq<Stack>, col: int)
    requires col !in Cols(ss)
    ensures SlotsAt(ss, col) == EmptySlots()
  {
    if ss != [] {
      SlotsAtAbsent(ss[1..], col);
    }
  }

  lemma {:induction false} SetColKeys(ss: seq<Stack>, c: int, slots: Slots, col: int)
    ensures Cols(SetCol(ss, c, slots)) == Cols(ss)
    ensures SlotsAt(SetCol(ss, c, slots), col) == if col == c && c in Cols(ss) then slots else SlotsAt(ss, col)
  {
    if ss != [] {
      SetColKeys(ss[1..], c, slots, col);
    }
  }

  // ---------------------------------------------------------------------------
  // What one placement does
  // ---------------------------------------------------------------------------

  /** The stacks of the placed row, after its column key has been added if new. */
  function PlacedStacks(ws: Wheelstacks, w: LedgerRow): seq<Stack> {
    var ss := StacksAt(ws, w.shuttleNumber);
    if w.stackNumber in Cols(ss) then ss else ss + [Stack(w.stackNumber, EmptySlots())]
  }

  lemma PlaceUnfold(ws: Wheelstacks, w: LedgerRow, row: int)
    requires InSlotRange(w)
    ensures Rows(Place(ws, w)) == if w.shuttleNumber in Rows(ws) then Rows(ws) else Rows(ws) + [w.shuttleNumber]
    ensures StacksAt(Place(ws, w), row) ==
      if row == w.shuttleNumber then
        var ss1 := PlacedStacks(ws, w);
        SetCol(ss1, w.stackNumber, SlotsAt(ss1, w.stackNumber)[w.numberInStack := Some(w)])
      else StacksAt(ws, row)
  {
    var r := w.shuttleNumber;
    var ws1 := if r in Rows(ws) then ws else ws + [Shuttle(r, [])];
    RowsSnoc(ws, Shuttle(r, []));
    StacksAtSnoc(ws, Shuttle(r, []), row);
    StacksAtSnoc(ws, Shuttle(r, []), r);
    if r !in Rows(ws) {
      StacksAtAbsent(ws, r);
    }
    if row !in Rows(ws) {
      StacksAtAbsent(ws, row);
    }
    assert r in Rows(ws1);
    assert StacksAt(ws1, r) == StacksAt(ws, r);
    var ss1 := PlacedStacks(ws, w);
    var ss2 := SetCol(ss1, w.stackNumber, SlotsAt(ss1, w.stackNumber)[w.numberInStack := Some(w)]);
    assert Place(ws, w) == SetRow(ws1, r, ss2);
    SetRowKeys(ws1, r, ss2, row);
  }

  /** Placing `w` adds its shuttle number as a new row key if it was not one already. */
  lemma RowsPlace(ws: Wheelstacks, w: LedgerRow)
    requires InSlotRange(w)
    ensures Rows(Place(ws, w)) == if w.shuttleNumber in Rows(ws) then Rows(ws) else Rows(ws) + [w.shuttleNumber]
  {
    PlaceUnfold(ws, w, w.shuttleNumber);
  }

  /** Placing `w` adds its stack number as a new column key under its own row only. */
  lemma ColsPlace(ws: Wheelstacks, w: LedgerRow, row: int)
    requires InSlotRange(w)
    ensures Cols(StacksAt(Place(ws, w), row)) ==
      if row != w.shuttleNumber then Cols(StacksAt(ws, row))
      else if w.stackNumber in Cols(StacksAt(ws, row)) then Cols(StacksAt(ws, row))
      else Cols(StacksAt(ws, row)) + [w.stackNumber]
  {
    PlaceUnfold(ws, w, row);
    var ss1 := PlacedStacks(ws, w);
    SetColKeys(ss1, w.stackNumber, SlotsAt(ss1, w.stackNumber)[w.numberInStack := Some(w)], 0);
    ColsSnoc(StacksAt(ws, w.shuttleNumber), Stack(w.stackNumber, EmptySlots()));
  }

  /** Placing `w` changes only the slots of its own (row, col) group, and only slot `number_in_stack`. */
  lemma LookupPlace(ws: Wheelstacks, w: LedgerRow, row: int, col: int)
    requires InSlotRange(w)
    ensures Lookup(Place(ws, w), row, col) ==
      if row == w.shuttleNumber && col == w.stackNumber then
        Some((if Lookup(ws, row, col).Some? then Lookup(ws, row, col).value else EmptySlots())[w.numberInStack := Some(w)])
      else Lookup(ws, row, col)
  {
    RowsPlace(ws, w);
    ColsPlace(ws, w, row);
    PlaceUnfold(ws, w, row);
    if row == w.shuttleNumber {
      var ss := StacksAt(ws, row);
      var ss1 := PlacedStacks(ws, w);
      var slots := SlotsAt(ss1, w.stackNumber)[w.numberInStack := Some(w)];
      SetColKeys(ss1, w.stackNumber, slots, col);
      SlotsAtSnoc(ss, Stack(w.stackNumber, EmptySlots()), col);
      if row !in Rows(ws) {
        StacksAtAbsent(ws, row);
      }
      if col !in Cols(ss) {
        SlotsAtAbsent(ss, col);
      }
    }
  }

  // ---------------------------------------------------------------------------
  // Properties of the grouping
  // ---------------------------------------------------------------------------

  lemma OccupiesSnoc(init: seq<LedgerRow>, w: LedgerRow, row: int, col: int)
    ensures Occupies(init + [w], row, col) <==>
            Occupies(init, row, col) || (w.shuttleNumber == row && w.stackNumber == col)
  {
    var wheels := init + [w];
    if Occupies(init, row, col) {
      var k :| 0 <= k < |init| && init[k].shuttleNumber == row && init[k].stackNumber == col;
      assert wheels[k] == init[k];
    }
    if w.shuttleNumber == row && w.stackNumber == col {
      assert wheels[|init|] == w;
    }
    if Occupies(wheels, row, col) {
      var k :| 0 <= k < |wheels| && wheels[k].shuttleNumber == row && wheels[k].stackNumber == col;
      if k < |init| {
        assert init[k] == wheels[k];
      }
    }
  }

  lemma LastAtSnoc(init: seq<LedgerRow>, w: LedgerRow, row: int, col: int, slot: int)
    ensures LastAt(init + [w], row, col, slot) ==
      if w.shuttleNumber == row && w.stackNumber == col && w.numberInStack == slot then Some(w)
      else LastAt(init, row, col, slot)
  {
    assert (init + [w])[..|init|] == init;
  }

  lemma {:induction false} LastAtUnoccupied(wheels: seq<LedgerRow>, row: int, col: int, slot: int)
    requires !Occupies(wheels, row, col)
    ensures LastAt(wheels, row, col, slot) == None
  {
    if wheels != [] {
      var init := wheels[..|wheels| - 1];
      OccupiesSnoc(init, wheels[|wheels| - 1], row, col);
      assert init + [wheels[|wheels| - 1]] == wheels;
      LastAtUnoccupied(init, row, col, slot);
    }
  }

  lemma DedupSnoc(xs: seq<int>, x: int)
    ensures Dedup(xs + [x]) == if x in xs then Dedup(xs) else Dedup(xs) + [x]
  {
    assert (xs + [x])[..|xs|] == xs;
  }

  lemma ShuttleNumbersSnoc(init: seq<LedgerRow>, w: LedgerRow)
    ensures ShuttleNumbers(init + [w]) == ShuttleNumbers(init) + [w.shuttleNumber]
  {
    assert (init + [w])[..|init|] == init;
  }

  lemma StackNumbersSnoc(init: seq<LedgerRow>, w: LedgerRow, row: int)
    ensures StackNumbersIn(init + [w], row) ==
            StackNumbersIn(init, row) + (if w.shuttleNumber == row then [w.stackNumber] else [])
  {
    assert (init + [w])[..|init|] == init;
  }

  /** Slot `k` of a group holds the last row with its coordinates and `number_in_stack == k`. */
  ghost predicate HoldsLastRows(wheels: seq<LedgerRow>, row: int, col: int, slots: Slots) {
    forall k :: 0 <= k < SLOT_COUNT ==> slots[k] == LastAt(wheels, row, col, k)
  }

  /**
   * A (row, col) group exists iff some pending row has those coordinates, and
   * its slot `k` holds the last such row with `number_in_stack == k`.
   */
  lemma {:induction false} GroupedSlots(wheels: seq<LedgerRow>, row: int, col: int)
    requires AllInSlotRange(wheels)
    ensures Lookup(Grouped(wheels), row, col).Some? <==> Occupies(wheels, row, col)
    ensures Lookup(Grouped(wheels), row, col).Some? ==>
            HoldsLastRows(wheels, row, col, Lookup(Grouped(wheels), row, col).value)
  {
    if wheels == [] {
      return;
    }
    var init, w := wheels[..|wheels| - 1], wheels[|wheels| - 1];
    assert wheels == init + [w];
    assert AllInSlotRange(init);
    var ws0 := Grouped(init);
    assert Grouped(wheels) == Place(ws0, w);
    GroupedSlots(init, row, col);
    LookupPlace(ws0, w, row, col);
    OccupiesSnoc(init, w, row, col);
    var l := Lookup(Grouped(wheels), row, col);
    if l.Some? {
      var newKey := row == w.shuttleNumber && col == w.stackNumber && !Occupies(init, row, col);
      forall k | 0 <= k < SLOT_COUNT ensures l.value[k] == LastAt(wheels, row, col, k) {
        LastAtSnoc(init, w, row, col, k);
        if newKey {
          LastAtUnoccupied(init, row, col, k);
        }
      }
    }
  }

  /** The row keys are the distinct `shuttle_number`s, in order of first appearance. */
  lemma {:induction false} GroupedRowOrder(wheels: seq<LedgerRow>)
    requires AllInSlotRange(wheels)
    ensures Rows(Grouped(wheels)) == Dedup(ShuttleNumbers(wheels))
  {
    if wheels != [] {
      var init, w := wheels[..|wheels| - 1], wheels[|wheels| - 1];
      assert wheels == init + [w];
      assert AllInSlotRange(init);
      GroupedRowOrder(init);
      RowsPlace(Grouped(init), w);
      ShuttleNumbersSnoc(init, w);
      DedupSnoc(ShuttleNumbers(init), w.shuttleNumber);
    }
  }

  /**
   * Under each row key the column keys are the distinct `stack_number`s of that
   * shuttle's rows, in order of first appearance.
   */
  lemma {:induction false} GroupedColOrder(wheels: seq<LedgerRow>, row: int)
    requires AllInSlotRange(wheels)
    ensures Cols(StacksAt(Grouped(wheels), row)) == Dedup(StackNumbersIn(wheels, row))
  {
    if wheels != [] {
      var init, w := wheels[..|wheels| - 1], wheels[|wheels| - 1];
      assert wheels == init + [w];
      assert AllInSlotRange(init);
      var ws0 := Grouped(init);
      assert Grouped(wheels) == Place(ws0, w);
      GroupedColOrder(init, row);
      ColsPlace(ws0, w, row);
      StackNumbersSnoc(init, w, row);
      var xs := StackNumbersIn(init, row);
      if w.shuttleNumber == row {
        DedupSnoc(xs, w.stackNumber);
        assert StackNumbersIn(wheels, row) == xs + [w.stackNumber];
      } else {
        assert StackNumbersIn(wheels, row) == xs;
      }
    }
  }

  // ---------------------------------------------------------------------------
  // The groups in visiting order
  // ---------------------------------------------------------------------------

  function StackGroups(row: int, ss: seq<Stack>): seq<Group> {
    if ss == [] then [] else [Group(row, ss[0].col, ss[0].slots)] + StackGroups(row, ss[1..])
  }

  /** The groups in the order `for row in wheelstacks_data: for col in wheelstacks_data[row]` visits them. */
  function Groups(ws: Wheelstacks): seq<Group> {
    if ws == [] then [] else StackGroups(ws[0].row, ws[0].stacks) + Groups(ws[1..])
  }

  /** No key occurs twice at either level, as in a dict. */
  predicate Keyed(ws: Wheelstacks) {
    ws == [] || (ws[0].row !in Rows(ws[1..]) && Distinct(Cols(ws[0].stacks)) && Keyed(ws[1..]))
  }

  lemma {:induction false} StackGroupsMembers(row: int, ss: seq<Stack>, g: Group)
    requires Distinct(Cols(ss))
    ensures g in StackGroups(row, ss) <==> g.row == row && g.col in Cols(ss) && g.slots == SlotsAt(ss, g.col)
  {
    if ss != [] {
      StackGroupsMembers(row, ss[1..], g);
    }
  }

  /** The groups visited are exactly the (row, col) entries of the dict. */
  lemma {:induction false} GroupsMembers(ws: Wheelstacks, g: Group)
    requires Keyed(ws)
    ensures g in Groups(ws) <==> Lookup(ws, g.row, g.col) == Some(g.slots)
  {
    if ws != [] {
      GroupsMembers(ws[1..], g);
      StackGroupsMembers(ws[0].row, ws[0].stacks, g);
    }
  }

  lemma {:induction false} KeyedByOrder(ws: Wheelstacks)
    requires Distinct(Rows(ws))
    requires forall row :: Distinct(Cols(StacksAt(ws, row)))
    ensures Keyed(ws)
  {
    if ws != [] {
      assert Distinct(Cols(StacksAt(ws, ws[0].row)));
      forall row ensures Distinct(Cols(StacksAt(ws[1..], row))) {
        if row == ws[0].row {
          StacksAtAbsent(ws[1..], row);
        } else {
          assert StacksAt(ws[1..], row) == StacksAt(ws, row);
        }
      }
      KeyedByOrder(ws[1..]);
    }
  }

  lemma GroupedKeyed(wheels: seq<LedgerRow>)
    requires AllInSlotRange(wheels)
    ensures Keyed(Grouped(wheels))
  {
    GroupedRowOrder(wheels);
    forall row ensures Distinct(Cols(StacksAt(Grouped(wheels), row))) {
      GroupedColOrder(wheels, row);
    }
    KeyedByOrder(Grouped(wheels));
  }

  /**
   * The groups visited are exactly the occupied (row, col) pairs, each holding
   * in slot `k` the last pending row with its coordinates and `number_in_stack == k`.
   */
  lemma GroupsOfGrouped(wheels: seq<LedgerRow>, g: Group)
    requires AllInSlotRange(wheels)
    ensures g in Groups(Grouped(wheels)) <==> Occupies(wheels, g.row, g.col) && HoldsLastRows(wheels, g.row, g.col, g.slots)
    ensures g in Groups(Grouped(wheels)) ==>
      forall k :: 0 <= k < SLOT_COUNT && g.slots[k].Some? ==>
        g.slots[k].value in wheels && g.slots[k].value.shuttleNumber == g.row &&
        g.slots[k].value.stackNumber == g.col && g.slots[k].value.numberInStack == k
  {
    GroupedKeyed(wheels);
    GroupsMembers(Grouped(wheels), g);
    GroupedSlots(wheels, g.row, g.col);
    var l := Lookup(Grouped(wheels), g.row, g.col);
    if Occupies(wheels, g.row, g.col) && HoldsLastRows(wheels, g.row, g.col, g.slots) {
      assert g.slots == l.value;
    }
  }

  /** A row held by a group is one of the grouped rows, at that group's coordinates. */
  lemma GroupRowIsWheel(wheels: seq<LedgerRow>, g: Group, x: LedgerRow)
    requires AllInSlotRange(wheels)
    requires g in Groups(Grouped(wheels)) && Some(x) in g.slots
    ensures x in wheels && x.shuttleNumber == g.row && x.stackNumber == g.col
  {
    GroupsOfGrouped(wheels, g);
    var k :| 0 <= k < |g.slots| && g.slots[k] == Some(x);
    assert g.slots[k].value == x;
  }

  // ---------------------------------------------------------------------------
  // The grouping loop
  // ---------------------------------------------------------------------------

  lemma GroupedSnoc(wheels: seq<LedgerRow>, n: nat)
    requires n < |wheels| && AllInSlotRange(wheels)
    ensures AllInSlotRange(wheels[..n]) && AllInSlotRange(wheels[..n + 1])
    ensures Grouped(wheels[..n + 1]) == Place(Grouped(wheels[..n]), wheels[n])
  {
    assert wheels[..n + 1][..n] == wheels[..n];
  }

  /** The loop of sql_transfer_wheels that fills `wheelstacks_data`. */
  method GroupWheels(wheels: seq<LedgerRow>) returns (ws: Wheelstacks)
    requires AllInSlotRange(wheels)
    ensures ws == Grouped(wheels)
  {
    ws := [];
    var n := 0;
    while n < |wheels|
      invariant 0 <= n <= |wheels|
      invariant AllInSlotRange(wheels[..n])
      invariant ws == Grouped(wheels[..n])
    {
      GroupedSnoc(wheels, n);
      ws := PlaceWheel(ws, wheels[n]);
      n := n + 1;
    }
    assert wheels[..n] == wheels;
  }

  /** One pass of the grouping loop, updating `wheelstacks_data` for row `w`. */
  method PlaceWheel(ws0: Wheelstacks, w: LedgerRow) returns (ws: Wheelstacks)
    requires InSlotRange(w)
    ensures ws == Place(ws0, w)
  {
    ws := ws0;
    var row := w.shuttleNumber;
    if row !in Rows(ws) {
      ws := ws + [Shuttle(row, [])];
    }
    var col := w.stackNumber;
    var stacks := StacksAt(ws, row);
    if col !in Cols(stacks) {
      stacks := stacks + [Stack(col, EmptySlots())];
    }
    var slots := SlotsAt(stacks, col)[w.numberInStack := Some(w)];
    ws := SetRow(ws, row, SetCol(stacks, col, slots));
  }

}
