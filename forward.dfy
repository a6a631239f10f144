/**
 * sql_transfer_wheels: the forward sync from the ledger to the document store.
 * The pending rows are grouped into wheelstacks, a wheel is created for each
 * filled slot (the first failure aborts that wheelstack), a wheelstack is
 * created for each surviving group (only status 201 counts), and the rows and
 * ids are routed to the acknowledgment list and the cleanup list.
 *
 * The document API is a pair of oracles: one maps a wheel creation request to
 * the created `_id` (`None` when the response is not ok), the other maps a
 * wheelstack creation request to its status code and `_id`. Every request of
 * one run is distinct, so a function of the request is as general as an
 * answer per call.
 */
module ForwardSync {
  import opened Wrappers
  import opened Ledger
  import opened Grouping
  import opened Staging

  /** `maxSize` of every wheelstack request. */
  const WHEELSTACK_MAX_SIZE := 6

  /** `placementType` and `status` of every wheelstack request. */
  const STANDARD_PLACEMENT_STATUS := "basePlatform"

  /** `status` of every wheel creation request. */
  const WHEEL_STATUS := "basePlatform"

  /** `wheelDiameter` of every wheel creation request. */
  const WHEEL_DIAMETER := 10000

  /** The only wheelstack response code taken as success. */
  const CREATED := 201

  /** The body of `POST /wheels` (without `receiptDate`, a clock reading). */
  datatype WheelRequest = WheelRequest(
    wheelId: string,
    batchNumber: string,
    wheelDiameter: int,
    status: string,
    sqlData: LedgerRow)

  /** The body of `POST /wheelstacks`. */
  datatype WheelstackRequest = WheelstackRequest(
    placementId: Id,
    placementType: string,
    rowPlacement: int,
    colPlacement: int,
    maxSize: int,
    batchNumber: string,
    blocked: bool,
    status: string,
    wheels: seq<Id>)

  datatype StackResponse = StackResponse(statusCode: int, id: Id)

  type WheelOracle = WheelRequest -> Option<Id>

  type StackOracle = WheelstackRequest -> StackResponse

  /** The body of `POST /wheels` for a row; it carries the row itself, so distinct rows give distinct requests. */
  function WheelRequestFor(w: LedgerRow): (r: WheelRequest)
    ensures r.sqlData == w && r.wheelId == w.markedPartNo && r.batchNumber == w.orderNo
    ensures r.wheelDiameter == 10000 && r.status == "basePlatform"
  {
    WheelRequest(w.markedPartNo, w.orderNo, WHEEL_DIAMETER, WHEEL_STATUS, w)
  }

  function WheelRequests(rows: seq<LedgerRow>): seq<WheelRequest> {
    seq(|rows|, i requires 0 <= i < |rows| => WheelRequestFor(rows[i]))
  }

  lemma WheelRequestsAppend(a: seq<LedgerRow>, b: seq<LedgerRow>)
    ensures WheelRequests(a + b) == WheelRequests(a) + WheelRequests(b)
  {
  }

  /** The filled slots, in slot order. */
  function NonNull(slots: seq<Option<LedgerRow>>): (r: seq<LedgerRow>)
    ensures forall x :: x in r <==> Some(x) in slots
  {
    if slots == [] then []
    else
      assert forall o :: o in slots <==> o == slots[0] || o in slots[1..];
      (if slots[0].Some? then [slots[0].value] else []) + NonNull(slots[1..])
  }

  lemma {:induction false} NonNullSnoc(slots: seq<Option<LedgerRow>>, o: Option<LedgerRow>)
    ensures NonNull(slots + [o]) == NonNull(slots) + (if o.Some? then [o.value] else [])
  {
    if slots != [] {
      assert (slots + [o])[1..] == slots[1..] + [o];
      NonNullSnoc(slots[1..], o);
    }
  }

  // ---------------------------------------------------------------------------
  // Wheel creation within one group
  // ---------------------------------------------------------------------------

  /** What the slot loop of one group did: the ids created, the requests sent, whether it broke off. */
  datatype Creation = Creation(created: seq<Id>, requests: seq<WheelRequest>, aborted: bool)

  /**
   * One slot of the loop: skip an empty slot, else send its request; a failed
   * answer aborts. A step only extends the lists, by at most one request and
   * one id; an aborted loop or an empty slot changes nothing; a step that
   * aborts adds no id and its one request went unanswered.
   */
  function CreateStep(c: Creation, slot: Option<LedgerRow>, create: WheelOracle): (r: Creation)
    ensures c.created <= r.created && c.requests <= r.requests
    ensures |r.requests| <= |c.requests| + 1 && |r.created| <= |c.created| + 1
    ensures c.aborted || slot.None? ==> r == c
    ensures !c.aborted && r.aborted ==>
      r.created == c.created && |r.requests| == |c.requests| + 1 && create(r.requests[|c.requests|]) == None
  {
    if c.aborted || slot.None? then c
    else
      var req := WheelRequestFor(slot.value);
      match create(req)
      case None => Creation(c.created, c.requests + [req], true)
      case Some(id) => Creation(c.created + [id], c.requests + [req], false)
  }

  /** The slot loop over `slots`, one `CreateStep` per slot. */
  function CreateWheels(slots: seq<Option<LedgerRow>>, create: WheelOracle): Creation {
    if slots == [] then Creation([], [], false)
    else CreateStep(CreateWheels(slots[..|slots| - 1], create), slots[|slots| - 1], create)
  }

  /**
   * Every id created answers the request at its position, and an aborted loop
   * ends with the one failed request.
   */
  lemma {:induction false} CreateWheelsAnswers(slots: seq<Option<LedgerRow>>, create: WheelOracle)
    ensures var c := CreateWheels(slots, create);
      && |c.requests| == |c.created| + (if c.aborted then 1 else 0)
      && (forall i :: 0 <= i < |c.created| ==> create(c.requests[i]) == Some(c.created[i]))
      && (c.aborted ==> create(c.requests[|c.requests| - 1]) == None)
  {
    if slots != [] {
      CreateWheelsAnswers(slots[..|slots| - 1], create);
    }
  }

  /**
   * The requests are those of the filled slots in slot order: all of them when
   * nothing failed, else those up to and including the failed one.
   */
  lemma {:induction false} CreateWheelsRequests(slots: seq<Option<LedgerRow>>, create: WheelOracle)
    ensures CreateWheels(slots, create).requests <= WheelRequests(NonNull(slots))
    ensures !CreateWheels(slots, create).aborted ==> CreateWheels(slots, create).requests == WheelRequests(NonNull(slots))
  {
    if slots != [] {
      var init, last := slots[..|slots| - 1], slots[|slots| - 1];
      assert slots == init + [last];
      CreateWheelsRequests(init, create);
      NonNullSnoc(init, last);
      WheelRequestsAppend(NonNull(init), if last.Some? then [last.value] else []);
    }
  }

  lemma {:induction false} CreateWheelsSnoc(slots: seq<Option<LedgerRow>>, o: Option<LedgerRow>, create: WheelOracle)
    ensures CreateWheels(slots + [o], create) == CreateStep(CreateWheels(slots, create), o, create)
  {
    assert (slots + [o])[..|slots|] == slots;
  }

  /** Once a slot fails, the later slots send nothing. */
  lemma {:induction false} AbortIsFinal(slots: seq<Option<LedgerRow>>, k: nat, create: WheelOracle)
    requires k <= |slots|
    requires CreateWheels(slots[..k], create).aborted
    ensures CreateWheels(slots, create) == CreateWheels(slots[..k], create)
  {
    if k < |slots| {
      var init := slots[..|slots| - 1];
      assert slots == init + [slots[|slots| - 1]];
      assert init[..k] == slots[..k];
      AbortIsFinal(init, k, create);
      CreateWheelsSnoc(init, slots[|slots| - 1], create);
    } else {
      assert slots[..k] == slots;
    }
  }

  /** Without a failure, one wheel is created per filled slot, in slot order. */
  lemma CreatedOnePerFilledSlot(slots: seq<Option<LedgerRow>>, create: WheelOracle)
    ensures !CreateWheels(slots, create).aborted <==>
            forall i :: 0 <= i < |NonNull(slots)| ==> create(WheelRequestFor(NonNull(slots)[i])).Some?
    ensures !CreateWheels(slots, create).aborted ==>
            |CreateWheels(slots, create).created| == |NonNull(slots)| &&
            forall i :: 0 <= i < |NonNull(slots)| ==>
              create(WheelRequestFor(NonNull(slots)[i])) == Some(CreateWheels(slots, create).created[i])
  {
    var c := CreateWheels(slots, create);
    var rs := NonNull(slots);
    CreateWheelsRequests(slots, create);
    CreateWheelsAnswers(slots, create);
    if c.aborted {
      var n := |c.requests| - 1;
      assert c.requests[n] == WheelRequests(rs)[n] == WheelRequestFor(rs[n]);
      assert create(WheelRequestFor(rs[n])).None?;
    } else {
      forall i | 0 <= i < |rs| ensures create(WheelRequestFor(rs[i])) == Some(c.created[i]) {
        assert c.requests[i] == WheelRequestFor(rs[i]);
      }
    }
  }

  // ---------------------------------------------------------------------------
  // The wheel phase over all groups
  // ---------------------------------------------------------------------------

  /** One group together with what its slot loop did. */
  datatype Attempt = Attempt(group: Group, creation: Creation)

  function Attempts(groups: seq<Group>, create: WheelOracle): seq<Attempt> {
    seq(|groups|, i requires 0 <= i < |groups| => Attempt(groups[i], CreateWheels(groups[i].slots, create)))
  }

  /** The ids `failed_wheels += created_wheels` collected from the aborted groups, in order. */
  function AbortedIds(attempts: seq<Attempt>): (r: seq<Id>)
    ensures forall x :: x in r <==>
      exists a :: a in attempts && a.creation.aborted && x in a.creation.created
  {
    if attempts == [] then []
    else
      var init, a := attempts[..|attempts| - 1], attempts[|attempts| - 1];
      assert attempts == init + [a];
      AbortedIds(init) + (if a.creation.aborted then a.creation.created else [])
  }

  /** The groups left in `wheelstacks_data` after the failed ones are deleted, in visiting order. */
  function Survivors(attempts: seq<Attempt>): (r: seq<Attempt>)
    ensures forall a :: a in r <==> a in attempts && !a.creation.aborted
    ensures |r| <= |attempts|
  {
    if attempts == [] then []
    else
      var init, a := attempts[..|attempts| - 1], attempts[|attempts| - 1];
      assert attempts == init + [a];
      Survivors(init) + (if a.creation.aborted then [] else [a])
  }

  /** Every wheel creation request sent, in order. */
  function WheelRequestsSent(attempts: seq<Attempt>): seq<WheelRequest> {
    if attempts == [] then []
    else WheelRequestsSent(attempts[..|attempts| - 1]) + attempts[|attempts| - 1].creation.requests
  }

  lemma AttemptsSnoc(groups: seq<Group>, n: int, create: WheelOracle)
    requires 0 <= n < |groups|
    ensures Attempts(groups[..n + 1], create) ==
            Attempts(groups[..n], create) + [Attempt(groups[n], CreateWheels(groups[n].slots, create))]
  {
  }

  lemma WheelPhaseSnoc(attempts: seq<Attempt>, a: Attempt)
    ensures AbortedIds(attempts + [a]) == AbortedIds(attempts) + (if a.creation.aborted then a.creation.created else [])
    ensures Survivors(attempts + [a]) == Survivors(attempts) + (if a.creation.aborted then [] else [a])
    ensures WheelRequestsSent(attempts + [a]) == WheelRequestsSent(attempts) + a.creation.requests
  {
    assert (attempts + [a])[..|attempts|] == attempts;
  }

  // ---------------------------------------------------------------------------
  // The wheelstack phase over the surviving groups
  // ---------------------------------------------------------------------------

  /** The `order_no` of the first filled slot, or `""` when every slot is empty. */
  function BatchNumber(slots: seq<Option<LedgerRow>>): string {
    if NonNull(slots) == [] then "" else NonNull(slots)[0].orderNo
  }

  /** The batch number is that of the earliest filled slot, and empty when no slot is filled. */
  lemma BatchNumberOfFirstFilled(slots: seq<Option<LedgerRow>>)
    ensures (forall k :: 0 <= k < |slots| ==> slots[k].None?) ==> BatchNumber(slots) == ""
    ensures forall k :: 0 <= k < |slots| && slots[k].Some? && (forall j :: 0 <= j < k ==> slots[j].None?) ==>
      BatchNumber(slots) == slots[k].value.orderNo
  {
    FirstFilled(slots);
  }

  /** The first filled slot heads the filled slots; with none filled there are none. */
  lemma {:induction false} FirstFilled(slots: seq<Option<LedgerRow>>)
    ensures (forall k :: 0 <= k < |slots| ==> slots[k].None?) ==> NonNull(slots) == []
    ensures forall k :: 0 <= k < |slots| && slots[k].Some? && (forall j :: 0 <= j < k ==> slots[j].None?) ==>
      NonNull(slots) != [] && NonNull(slots)[0] == slots[k].value
  {
    if slots != [] {
      var rest := slots[1..];
      FirstFilled(rest);
      if slots[0].None? {
        assert NonNull(slots) == NonNull(rest);
        forall k | 0 <= k < |slots| && slots[k].Some? && (forall j :: 0 <= j < k ==> slots[j].None?)
          ensures NonNull(slots) != [] && NonNull(slots)[0] == slots[k].value
        {
          assert rest[k - 1] == slots[k];
          forall j | 0 <= j < k - 1 ensures rest[j].None? {
            assert rest[j] == slots[j + 1];
          }
        }
        if forall k :: 0 <= k < |slots| ==> slots[k].None? {
          forall j | 0 <= j < |rest| ensures rest[j].None? {
            assert rest[j] == slots[j + 1];
          }
        }
      } else {
        forall k | 0 <= k < |slots| && slots[k].Some? && (forall j :: 0 <= j < k ==> slots[j].None?)
          ensures NonNull(slots) != [] && NonNull(slots)[0] == slots[k].value
        {
          if k != 0 {
            assert false;
          }
        }
      }
    }
  }

  /** The body of `POST /wheelstacks` for a surviving group. */
  function StackRequestFor(platformId: Id, a: Attempt): WheelstackRequest {
    WheelstackRequest(
      platformId, STANDARD_PLACEMENT_STATUS, a.group.row, a.group.col, WHEELSTACK_MAX_SIZE,
      BatchNumber(a.group.slots), false, STANDARD_PLACEMENT_STATUS, a.creation.created)
  }

  /**
   * The wheelstack request places the group at its own row and column on the
   * platform, lists exactly the wheels created for it, takes the batch number
   * of its first filled slot and is an unblocked base-platform stack of six.
   */
  lemma StackRequestDescribesGroup(platformId: Id, a: Attempt)
    ensures var r := StackRequestFor(platformId, a);
      && r.placementId == platformId && r.rowPlacement == a.group.row && r.colPlacement == a.group.col
      && r.wheels == a.creation.created && r.batchNumber == BatchNumber(a.group.slots)
      && r.maxSize == 6 && !r.blocked && r.placementType == "basePlatform" && r.status == "basePlatform"
  {
  }

  /** A group ends as a created wheelstack: all its wheels were created and the response was 201. */
  predicate Succeeded(platformId: Id, a: Attempt, stack: StackOracle) {
    !a.creation.aborted && stack(StackRequestFor(platformId, a)).statusCode == CREATED
  }

  /** What the wheelstack loop did: requests sent, stacks created, ids failed, rows pushed. */
  datatype StackPhase = StackPhase(
    requests: seq<WheelstackRequest>,
    created: seq<Id>,
    failed: seq<Id>,
    pushed: seq<LedgerRow>)

  /**
   * One iteration of the wheelstack loop. It sends the group's request and
   * only extends the lists: a 201 adds one wheelstack id and fails nothing,
   * any other code adds no wheelstack and pushes no row.
   */
  function StackStep(p: StackPhase, platformId: Id, a: Attempt, stack: StackOracle): (r: StackPhase)
    ensures r.requests == p.requests + [StackRequestFor(platformId, a)]
    ensures p.created <= r.created && p.failed <= r.failed && p.pushed <= r.pushed
    ensures var ok := stack(StackRequestFor(platformId, a)).statusCode == CREATED;
      && |r.created| == |p.created| + (if ok then 1 else 0)
      && (ok ==> r.failed == p.failed)
      && (!ok ==> r.pushed == p.pushed)
  {
    var req := StackRequestFor(platformId, a);
    var resp := stack(req);
    if resp.statusCode != CREATED then
      StackPhase(p.requests + [req], p.created, p.failed + req.wheels, p.pushed)
    else
      StackPhase(p.requests + [req], p.created + [resp.id], p.failed, p.pushed + NonNull(a.group.slots))
  }

  /** The wheelstack loop over `survivors`: one request per group, in order. */
  function StackLoop(platformId: Id, survivors: seq<Attempt>, stack: StackOracle): (p: StackPhase)
    ensures |p.requests| == |survivors|
    ensures forall i :: 0 <= i < |survivors| ==> p.requests[i] == StackRequestFor(platformId, survivors[i])
  {
    if survivors == [] then StackPhase([], [], [], [])
    else
      var init, a := survivors[..|survivors| - 1], survivors[|survivors| - 1];
      assert survivors == init + [a];
      StackStep(StackLoop(platformId, init, stack), platformId, a, stack)
  }

  /** A group's wheel ids are failed by the wheelstack loop iff its response is not 201. */
  lemma {:induction false} StackLoopFailed(platformId: Id, survivors: seq<Attempt>, stack: StackOracle, x: Id)
    ensures x in StackLoop(platformId, survivors, stack).failed <==>
      exists a :: a in survivors && stack(StackRequestFor(platformId, a)).statusCode != CREATED && x in a.creation.created
  {
    if survivors != [] {
      var init, a := survivors[..|survivors| - 1], survivors[|survivors| - 1];
      assert survivors == init + [a];
      StackLoopFailed(platformId, init, stack, x);
    }
  }

  /** A group's rows are pushed by the wheelstack loop iff its response is 201. */
  lemma {:induction false} StackLoopPushed(platformId: Id, survivors: seq<Attempt>, stack: StackOracle, x: LedgerRow)
    ensures x in StackLoop(platformId, survivors, stack).pushed <==>
      exists a :: a in survivors && stack(StackRequestFor(platformId, a)).statusCode == CREATED && x in NonNull(a.group.slots)
  {
    if survivors != [] {
      var init, a := survivors[..|survivors| - 1], survivors[|survivors| - 1];
      assert survivors == init + [a];
      StackLoopPushed(platformId, init, stack, x);
    }
  }

  /** The created wheelstack ids are the ids of the 201 responses. */
  lemma {:induction false} StackLoopCreated(platformId: Id, survivors: seq<Attempt>, stack: StackOracle, x: Id)
    ensures x in StackLoop(platformId, survivors, stack).created <==>
      exists a :: a in survivors && stack(StackRequestFor(platformId, a)) == StackResponse(CREATED, x)
  {
    if survivors != [] {
      var init, a := survivors[..|survivors| - 1], survivors[|survivors| - 1];
      assert survivors == init + [a];
      StackLoopCreated(platformId, init, stack, x);
    }
  }

  lemma StackLoopSnoc(platformId: Id, survivors: seq<Attempt>, a: Attempt, stack: StackOracle)
    ensures StackLoop(platformId, survivors + [a], stack) == StackStep(StackLoop(platformId, survivors, stack), platformId, a, stack)
  {
    assert (survivors + [a])[..|survivors|] == survivors;
  }

  // ---------------------------------------------------------------------------
  // The whole task
  // ---------------------------------------------------------------------------

  datatype ForwardResult =
    | PlatformNotFound
    | NothingPending
    | Synced(createdWheelstacks: seq<Id>, failedWheels: seq<Id>)

  /** The returned value together with every side effect of one run. */
  datatype ForwardRun = ForwardRun(
    result: ForwardResult,
    wheelRequests: seq<WheelRequest>,
    stackRequests: seq<WheelstackRequest>,
    acked: seq<LedgerRow>,
    failedPushed: seq<Id>,
    ackScheduled: nat,
    cleanupScheduled: bool)

  /** One run, given the platform lookup, the pending rows read and the two oracles. */
  function Forward(pending: seq<LedgerRow>, platform: Option<Id>, create: WheelOracle, stack: StackOracle): (r: ForwardRun)
    requires AllInSlotRange(pending)
    ensures r.result.Synced? <==> platform.Some? && pending != []
    ensures !r.result.Synced? ==>
      && r.wheelRequests == [] && r.stackRequests == [] && r.acked == [] && r.failedPushed == []
      && r.ackScheduled == 0 && !r.cleanupScheduled
  {
    if platform.None? then ForwardRun(PlatformNotFound, [], [], [], [], 0, false)
    else if pending == [] then ForwardRun(NothingPending, [], [], [], [], 0, false)
    else SyncGroups(Groups(Grouped(pending)), platform.value, create, stack)
  }

  /** The two phases over the groups, and what the run then schedules. */
  function SyncGroups(groups: seq<Group>, platformId: Id, create: WheelOracle, stack: StackOracle): (r: ForwardRun)
    ensures r.result.Synced? && r.failedPushed == r.result.failedWheels
    ensures r.ackScheduled == |r.result.createdWheelstacks| && (r.cleanupScheduled <==> r.failedPushed != [])
    ensures |r.stackRequests| <= |groups|
  {
    var attempts := Attempts(groups, create);
    var p := StackLoop(platformId, Survivors(attempts), stack);
    var failed := AbortedIds(attempts) + p.failed;
    ForwardRun(Synced(p.created, failed), WheelRequestsSent(attempts), p.requests, p.pushed,
               failed, |p.created|, failed != [])
  }

  // ---------------------------------------------------------------------------
  // Properties of a run
  // ---------------------------------------------------------------------------

  /** The attempts of a run are those of the groups of the pending rows. */
  lemma AttemptsOfRun(pending: seq<LedgerRow>, create: WheelOracle, a: Attempt)
    requires AllInSlotRange(pending)
    requires a in Attempts(Groups(Grouped(pending)), create)
    ensures a.group in Groups(Grouped(pending))
    ensures a.creation == CreateWheels(a.group.slots, create)
  {
  }

  /** A failed id is one created for a group that did not end as a wheelstack, and every such id is failed. */
  lemma FailedWheelsExactly(pending: seq<LedgerRow>, platformId: Id, create: WheelOracle, stack: StackOracle, x: Id)
    requires AllInSlotRange(pending)
    ensures var run := Forward(pending, Some(platformId), create, stack);
      pending != [] ==>
        (x in run.result.failedWheels <==>
          exists a :: a in Attempts(Groups(Grouped(pending)), create) &&
                      x in a.creation.created && !Succeeded(platformId, a, stack))
  {
    var attempts := Attempts(Groups(Grouped(pending)), create);
    var p := StackLoop(platformId, Survivors(attempts), stack);
    StackLoopFailed(platformId, Survivors(attempts), stack, x);
    if pending != [] {
      if x in AbortedIds(attempts) + p.failed {
        if x in AbortedIds(attempts) {
          var a :| a in attempts && a.creation.aborted && x in a.creation.created;
          assert !Succeeded(platformId, a, stack);
        } else {
          var a :| a in Survivors(attempts) && stack(StackRequestFor(platformId, a)).statusCode != CREATED && x in a.creation.created;
          assert !Succeeded(platformId, a, stack);
        }
      }
      if a :| a in attempts && x in a.creation.created && !Succeeded(platformId, a, stack) {
        if a.creation.aborted {
          assert x in AbortedIds(attempts);
        } else {
          assert a in Survivors(attempts);
          assert x in p.failed;
        }
      }
    }
  }

  /** A row goes to the acknowledgment list iff it fills a slot of a group that ended as a wheelstack. */
  lemma AckedRowsExactly(pending: seq<LedgerRow>, platformId: Id, create: WheelOracle, stack: StackOracle, x: LedgerRow)
    requires AllInSlotRange(pending)
    ensures var run := Forward(pending, Some(platformId), create, stack);
      x in run.acked <==>
        exists a :: a in Attempts(Groups(Grouped(pending)), create) &&
                    Succeeded(platformId, a, stack) && Some(x) in a.group.slots
  {
    var attempts := Attempts(Groups(Grouped(pending)), create);
    var p := StackLoop(platformId, Survivors(attempts), stack);
    StackLoopPushed(platformId, Survivors(attempts), stack, x);
    if pending != [] {
      if x in p.pushed {
        var a :| a in Survivors(attempts) && stack(StackRequestFor(platformId, a)).statusCode == CREATED && x in NonNull(a.group.slots);
        assert Succeeded(platformId, a, stack);
      }
      if a :| a in attempts && Succeeded(platformId, a, stack) && Some(x) in a.group.slots {
        assert a in Survivors(attempts);
        assert x in NonNull(a.group.slots);
      }
    } else {
      assert Groups(Grouped(pending)) == [];
    }
  }

  /** Only pending rows are ever pushed to the acknowledgment list. */
  lemma AckedRowsArePending(pending: seq<LedgerRow>, platform: Option<Id>, create: WheelOracle, stack: StackOracle, x: LedgerRow)
    requires AllInSlotRange(pending)
    requires x in Forward(pending, platform, create, stack).acked
    ensures x in pending
  {
    var platformId := platform.value;
    var attempts := Attempts(Groups(Grouped(pending)), create);
    StackLoopPushed(platformId, Survivors(attempts), stack, x);
    var a :| a in Survivors(attempts) && stack(StackRequestFor(platformId, a)).statusCode == CREATED && x in NonNull(a.group.slots);
    AttemptsOfRun(pending, create, a);
    GroupRowIsWheel(pending, a.group, x);
  }

  /**
   * Every wheelstack request is for a group of the pending rows whose wheels
   * were all created: it carries the group's key, the fixed capacity and status,
   * the `order_no` of the group's first filled slot, and the ids created for the
   * filled slots in slot order.
   */
  lemma StackRequestsContents(pending: seq<LedgerRow>, platformId: Id, create: WheelOracle, stack: StackOracle, i: int)
    requires AllInSlotRange(pending)
    requires 0 <= i < |Forward(pending, Some(platformId), create, stack).stackRequests|
    ensures var req := Forward(pending, Some(platformId), create, stack).stackRequests[i];
      exists g ::
        && g in Groups(Grouped(pending))
        && req.placementId == platformId
        && req.rowPlacement == g.row && req.colPlacement == g.col
        && req.maxSize == WHEELSTACK_MAX_SIZE && !req.blocked
        && req.placementType == STANDARD_PLACEMENT_STATUS && req.status == STANDARD_PLACEMENT_STATUS
        && NonNull(g.slots) != [] && req.batchNumber == NonNull(g.slots)[0].orderNo
        && |req.wheels| == |NonNull(g.slots)|
        && forall k :: 0 <= k < |req.wheels| ==> create(WheelRequestFor(NonNull(g.slots)[k])) == Some(req.wheels[k])
  {
    var attempts := Attempts(Groups(Grouped(pending)), create);
    var ss := Survivors(attempts);
    var a := ss[i];
    assert a in ss;
    var g := a.group;
    CreatedOnePerFilledSlot(g.slots, create);
    GroupsOfGrouped(pending, g);
    var k :| 0 <= k < |pending| && pending[k].shuttleNumber == g.row && pending[k].stackNumber == g.col;
    LastAtPresent(pending, k);
    assert g.slots[pending[k].numberInStack].Some?;
    assert g.slots[pending[k].numberInStack].value in NonNull(g.slots);
  }

  /** A row that is present makes the last row at its slot present. */
  lemma {:induction false} LastAtPresent(wheels: seq<LedgerRow>, k: int)
    requires 0 <= k < |wheels|
    ensures LastAt(wheels, wheels[k].shuttleNumber, wheels[k].stackNumber, wheels[k].numberInStack).Some?
  {
    var w := wheels[k];
    var init := wheels[..|wheels| - 1];
    if k < |wheels| - 1 {
      assert init[k] == w;
      LastAtPresent(init, k);
    }
  }

  /** Cleanup is scheduled iff some id was pushed to the cleanup list; one ack per created wheelstack. */
  lemma SchedulingFlags(pending: seq<LedgerRow>, platform: Option<Id>, create: WheelOracle, stack: StackOracle)
    requires AllInSlotRange(pending)
    ensures var run := Forward(pending, platform, create, stack);
      && (run.cleanupScheduled <==> run.failedPushed != [])
      && (run.result.Synced? ==> run.failedPushed == run.result.failedWheels &&
                                 run.ackScheduled == |run.result.createdWheelstacks|)
      && (!run.result.Synced? ==> run.ackScheduled == 0 && run.failedPushed == [])
  {
  }

  /** With no pending rows nothing is requested or pushed. */
  lemma EmptyInput(platformId: Id, create: WheelOracle, stack: StackOracle)
    ensures Forward([], Some(platformId), create, stack) == ForwardRun(NothingPending, [], [], [], [], 0, false)
  {
  }

  // ---------------------------------------------------------------------------
  // Two concrete runs
  // ---------------------------------------------------------------------------

  /** `n` empty slots. */
  function NoSlots(n: nat): seq<Option<LedgerRow>> {
    seq(n, _ => None)
  }

  lemma {:induction false} NonNullOfEmpty(n: nat)
    ensures NonNull(NoSlots(n)) == []
  {
    if n > 0 {
      assert NoSlots(n)[1..] == NoSlots(n - 1);
      NonNullOfEmpty(n - 1);
    }
  }

  /** Two pending rows of one wheelstack, in slots 0 and 1. */
  predicate TwoRowStack(r1: LedgerRow, r2: LedgerRow) {
    && r1.shuttleNumber == r2.shuttleNumber && r1.stackNumber == r2.stackNumber
    && r1.numberInStack == 0 && r2.numberInStack == 1
  }

  lemma PlaceIntoEmpty(w: LedgerRow)
    requires InSlotRange(w)
    ensures Place([], w) == [Shuttle(w.shuttleNumber, [Stack(w.stackNumber, EmptySlots()[w.numberInStack := Some(w)])])]
  {
    var row, col := w.shuttleNumber, w.stackNumber;
    var ws1 := [Shuttle(row, [])];
    assert [] + ws1 == ws1;
    assert StacksAt(ws1, row) == [];
    var ss1 := [Stack(col, EmptySlots())];
    assert [] + ss1 == ss1;
    assert SlotsAt(ss1, col) == EmptySlots();
    var s := EmptySlots()[w.numberInStack := Some(w)];
    assert ss1[1..] == [] && ws1[1..] == [];
    assert SetCol(ss1, col, s) == [Stack(col, s)];
    assert SetRow(ws1, row, [Stack(col, s)]) == [Shuttle(row, [Stack(col, s)])];
  }

  lemma PlaceIntoSingle(s: Slots, w: LedgerRow)
    requires InSlotRange(w)
    ensures Place([Shuttle(w.shuttleNumber, [Stack(w.stackNumber, s)])], w) ==
            [Shuttle(w.shuttleNumber, [Stack(w.stackNumber, s[w.numberInStack := Some(w)])])]
  {
    var row, col := w.shuttleNumber, w.stackNumber;
    var ss := [Stack(col, s)];
    var ws := [Shuttle(row, ss)];
    assert ws[1..] == [] && ss[1..] == [];
    assert Rows(ws) == [row];
    assert StacksAt(ws, row) == ss;
    assert Cols(ss) == [col];
    assert SlotsAt(ss, col) == s;
    var s1 := s[w.numberInStack := Some(w)];
    assert SetCol(ss, col, s1) == [Stack(col, s1)];
    assert SetRow(ws, row, [Stack(col, s1)]) == [Shuttle(row, [Stack(col, s1)])];
  }

  lemma TwoSlotsNonNull(r1: LedgerRow, r2: LedgerRow)
    ensures NonNull([Some(r1), Some(r2)] + NoSlots(8)) == [r1, r2]
  {
    var s1 := [Some(r1), Some(r2)] + NoSlots(8);
    NonNullOfEmpty(8);
    assert s1[1..] == [Some(r2)] + NoSlots(8);
    assert s1[1..][1..] == NoSlots(8);
  }

  /** Two such rows form one group holding them in slots 0 and 1. */
  lemma TwoRowGrouping(r1: LedgerRow, r2: LedgerRow)
    requires TwoRowStack(r1, r2)
    ensures AllInSlotRange([r1, r2])
    ensures Groups(Grouped([r1, r2])) == [Group(r1.shuttleNumber, r1.stackNumber, [Some(r1), Some(r2)] + NoSlots(8))]
    ensures NonNull([Some(r1), Some(r2)] + NoSlots(8)) == [r1, r2]
  {
    var rs := [r1, r2];
    var row, col := r1.shuttleNumber, r1.stackNumber;
    assert AllInSlotRange(rs);
    assert rs[..1] == [r1] && [r1][..0] == [];
    var s0: Slots := EmptySlots()[0 := Some(r1)];
    var s1: Slots := s0[1 := Some(r2)];
    PlaceIntoEmpty(r1);
    assert Grouped([r1]) == [Shuttle(row, [Stack(col, s0)])];
    PlaceIntoSingle(s0, r2);
    assert Grouped(rs) == [Shuttle(row, [Stack(col, s1)])];
    assert s1 == [Some(r1), Some(r2)] + NoSlots(8);
    assert StackGroups(row, [Stack(col, s1)]) == [Group(row, col, s1)];
    TwoSlotsNonNull(r1, r2);
  }

  lemma TwoSlotsCreated(r1: LedgerRow, r2: LedgerRow, create: WheelOracle, id1: Id, id2: Id)
    requires create(WheelRequestFor(r1)) == Some(id1) && create(WheelRequestFor(r2)) == Some(id2)
    ensures CreateWheels([Some(r1), Some(r2)] + NoSlots(8), create)
         == Creation([id1, id2], [WheelRequestFor(r1), WheelRequestFor(r2)], false)
  {
    var slots := [Some(r1), Some(r2)] + NoSlots(8);
    TwoSlotsNonNull(r1, r2);
    CreateWheelsRequests(slots, create);
    CreatedOnePerFilledSlot(slots, create);
    assert WheelRequests([r1, r2]) == [WheelRequestFor(r1), WheelRequestFor(r2)];
  }

  lemma SecondSlotFails(r1: LedgerRow, r2: LedgerRow, create: WheelOracle, id1: Id)
    requires create(WheelRequestFor(r1)) == Some(id1) && create(WheelRequestFor(r2)) == None
    ensures CreateWheels([Some(r1), Some(r2)] + NoSlots(8), create)
         == Creation([id1], [WheelRequestFor(r1), WheelRequestFor(r2)], true)
  {
    var slots := [Some(r1), Some(r2)] + NoSlots(8);
    assert slots[..2] == [Some(r1), Some(r2)];
    assert slots[..2][..1] == [Some(r1)] && [Some(r1)][..0] == [];
    assert CreateWheels([Some(r1)], create) == Creation([id1], [WheelRequestFor(r1)], false);
    AbortIsFinal(slots, 2, create);
  }

  /** The wheel phase of a single group. */
  lemma OneAttempt(g: Group, create: WheelOracle)
    ensures var a := Attempt(g, CreateWheels(g.slots, create));
      && Attempts([g], create) == [a]
      && AbortedIds([a]) == (if a.creation.aborted then a.creation.created else [])
      && Survivors([a]) == (if a.creation.aborted then [] else [a])
  {
    var a := Attempt(g, CreateWheels(g.slots, create));
    WheelPhaseSnoc([], a);
    assert [] + [a] == [a];
  }

  /** The wheelstack phase of a single surviving group. */
  lemma OneStack(platformId: Id, a: Attempt, stack: StackOracle)
    ensures StackLoop(platformId, [a], stack) == StackStep(StackPhase([], [], [], []), platformId, a, stack)
  {
    StackLoopSnoc(platformId, [], a, stack);
    assert [] + [a] == [a];
  }

  /**
   * A single group whose wheels are all created and whose wheelstack is
   * answered with 201: one wheelstack, nothing failed, the group's rows pushed.
   */
  lemma OneGroupStacked(platformId: Id, create: WheelOracle, stack: StackOracle, g: Group, stackId: Id)
    requires !CreateWheels(g.slots, create).aborted
    requires stack(StackRequestFor(platformId, Attempt(g, CreateWheels(g.slots, create)))) == StackResponse(CREATED, stackId)
    ensures var run := SyncGroups([g], platformId, create, stack);
      && run.result == Synced([stackId], [])
      && run.stackRequests == [StackRequestFor(platformId, Attempt(g, CreateWheels(g.slots, create)))]
      && run.acked == NonNull(g.slots)
      && run.failedPushed == [] && run.ackScheduled == 1 && !run.cleanupScheduled
  {
    var a := Attempt(g, CreateWheels(g.slots, create));
    OneAttempt(g, create);
    OneStack(platformId, a, stack);
    var req := StackRequestFor(platformId, a);
    assert [] + [req] == [req] && [] + [stackId] == [stackId] && [] + NonNull(g.slots) == NonNull(g.slots);
    assert StackLoop(platformId, [a], stack) == StackPhase([req], [stackId], [], NonNull(g.slots));
  }

  /**
   * A single group whose slot loop broke off: no wheelstack is requested and the
   * wheels it did create go to cleanup.
   */
  lemma OneGroupAborted(platformId: Id, create: WheelOracle, stack: StackOracle, g: Group)
    requires CreateWheels(g.slots, create).aborted
    ensures var run := SyncGroups([g], platformId, create, stack);
      var created := CreateWheels(g.slots, create).created;
      && run.result == Synced([], created)
      && run.stackRequests == [] && run.acked == []
      && run.failedPushed == created && run.ackScheduled == 0 && run.cleanupScheduled == (created != [])
  {
    OneAttempt(g, create);
    assert StackLoop(platformId, [], stack) == StackPhase([], [], [], []);
    assert CreateWheels(g.slots, create).created + [] == CreateWheels(g.slots, create).created;
  }

  /**
   * Two rows of one wheelstack, both wheels created and the wheelstack answered
   * with 201: one wheelstack carrying both ids, nothing failed, both rows
   * pushed for acknowledgment and no cleanup.
   */
  lemma TwoRowsAllCreated(
    r1: LedgerRow, r2: LedgerRow, platformId: Id, create: WheelOracle, stack: StackOracle,
    id1: Id, id2: Id, stackId: Id)
    requires TwoRowStack(r1, r2)
    requires create(WheelRequestFor(r1)) == Some(id1) && create(WheelRequestFor(r2)) == Some(id2)
    requires stack(WheelstackRequest(platformId, STANDARD_PLACEMENT_STATUS, r1.shuttleNumber, r1.stackNumber,
                                     WHEELSTACK_MAX_SIZE, r1.orderNo, false, STANDARD_PLACEMENT_STATUS, [id1, id2]))
             == StackResponse(CREATED, stackId)
    ensures AllInSlotRange([r1, r2])
    ensures var run := Forward([r1, r2], Some(platformId), create, stack);
      && run.result == Synced([stackId], [])
      && |run.stackRequests| == 1 && run.stackRequests[0].wheels == [id1, id2]
      && run.acked == [r1, r2]
      && run.failedPushed == [] && run.ackScheduled == 1 && !run.cleanupScheduled
  {
    TwoRowGrouping(r1, r2);
    var slots := [Some(r1), Some(r2)] + NoSlots(8);
    var g := Group(r1.shuttleNumber, r1.stackNumber, slots);
    TwoSlotsCreated(r1, r2, create, id1, id2);
    var at := Attempt(g, Creation([id1, id2], [WheelRequestFor(r1), WheelRequestFor(r2)], false));
    assert BatchNumber(slots) == r1.orderNo;
    OneGroupStacked(platformId, create, stack, g, stackId);
  }

  /**
   * Two rows of one wheelstack where the wheel of slot 1 fails: the group is
   * aborted, no wheelstack is requested, and the wheel of slot 0 goes to cleanup.
   */
  lemma TwoRowsSecondWheelFails(r1: LedgerRow, r2: LedgerRow, platformId: Id, create: WheelOracle, stack: StackOracle, id1: Id)
    requires TwoRowStack(r1, r2)
    requires create(WheelRequestFor(r1)) == Some(id1) && create(WheelRequestFor(r2)) == None
    ensures AllInSlotRange([r1, r2])
    ensures var run := Forward([r1, r2], Some(platformId), create, stack);
      && run.result == Synced([], [id1])
      && run.stackRequests == [] && run.acked == []
      && run.failedPushed == [id1] && run.ackScheduled == 0 && run.cleanupScheduled
  {
    TwoRowGrouping(r1, r2);
    var g := Group(r1.shuttleNumber, r1.stackNumber, [Some(r1), Some(r2)] + NoSlots(8));
    SecondSlotFails(r1, r2, create, id1);
    OneGroupAborted(platformId, create, stack, g);
  }

  // ---------------------------------------------------------------------------
  // The task's loops
  // ---------------------------------------------------------------------------

  /** The slot loop of one group: skip empty slots, create a wheel per filled slot, break at the first failure. */
  method CreateGroupWheels(slots: Slots, create: WheelOracle) returns (c: Creation)
    ensures c == CreateWheels(slots, create)
  {
    c := Creation([], [], false);
    var k := 0;
    while k < |slots|
      invariant 0 <= k <= |slots|
      invariant c == CreateWheels(slots[..k], create)
      invariant !c.aborted
    {
      CreateWheelsSnoc(slots[..k], slots[k], create);
      assert slots[..k + 1] == slots[..k] + [slots[k]];
      if slots[k].Some? {
        var req := WheelRequestFor(slots[k].value);
        var resp := create(req);
        if resp.None? {
          c := Creation(c.created, c.requests + [req], true);
          AbortIsFinal(slots, k + 1, create);
          return;
        }
        c := Creation(c.created + [resp.value], c.requests + [req], false);
      }
      k := k + 1;
    }
    assert slots[..k] == slots;
  }

  /** The loop that takes the `order_no` of the first filled slot. */
  method FindBatchNumber(slots: Slots) returns (b: string)
    ensures b == BatchNumber(slots)
  {
    b := "";
    var k := 0;
    while k < |slots|
      invariant 0 <= k <= |slots|
      invariant NonNull(slots) == NonNull(slots[k..])
    {
      assert slots[k..] == [slots[k]] + slots[k + 1..];
      if slots[k].Some? {
        b := slots[k].value.orderNo;
        return;
      }
      k := k + 1;
    }
  }

  /** RPUSH of every filled slot's row onto the acknowledgment list, in slot order. */
  method PushRows(correct: RedisList<LedgerRow>, slots: Slots)
    modifies correct
    ensures correct.items == old(correct.items) + NonNull(slots)
  {
    var k := 0;
    while k < |slots|
      invariant 0 <= k <= |slots|
      invariant correct.items == old(correct.items) + NonNull(slots[..k])
    {
      NonNullSnoc(slots[..k], slots[k]);
      assert slots[..k + 1] == slots[..k] + [slots[k]];
      if slots[k].Some? {
        assert old(correct.items) + NonNull(slots[..k]) + [slots[k].value] == old(correct.items) + (NonNull(slots[..k]) + [slots[k].value]);
        correct.RPush(slots[k].value);
      }
      k := k + 1;
    }
    assert slots[..k] == slots;
  }

  /** RPUSH of every failed id onto the cleanup list, in order. */
  method PushIds(failedQueue: RedisList<Id>, ids: seq<Id>)
    modifies failedQueue
    ensures failedQueue.items == old(failedQueue.items) + ids
  {
    var k := 0;
    while k < |ids|
      invariant 0 <= k <= |ids|
      invariant failedQueue.items == old(failedQueue.items) + ids[..k]
    {
      assert ids[..k + 1] == ids[..k] + [ids[k]];
      assert old(failedQueue.items) + ids[..k] + [ids[k]] == old(failedQueue.items) + (ids[..k] + [ids[k]]);
      failedQueue.RPush(ids[k]);
      k := k + 1;
    }
    assert ids[..k] == ids;
  }

  /** The wheel creation loop over the groups in visiting order. */
  method CreateAllWheels(groups: seq<Group>, create: WheelOracle)
    returns (attempts: seq<Attempt>, failedWheels: seq<Id>, wheelRequests: seq<WheelRequest>, survivors: seq<Attempt>)
    ensures attempts == Attempts(groups, create)
    ensures failedWheels == AbortedIds(attempts)
    ensures wheelRequests == WheelRequestsSent(attempts)
    ensures survivors == Survivors(attempts)
  {
    attempts, failedWheels, wheelRequests, survivors := [], [], [], [];
    var n := 0;
    while n < |groups|
      invariant 0 <= n <= |groups|
      invariant attempts == Attempts(groups[..n], create)
      invariant failedWheels == AbortedIds(attempts)
      invariant wheelRequests == WheelRequestsSent(attempts)
      invariant survivors == Survivors(attempts)
    {
      var c := CreateGroupWheels(groups[n].slots, create);
      var a := Attempt(groups[n], c);
      AttemptsSnoc(groups, n, create);
      WheelPhaseSnoc(attempts, a);
      if c.aborted {
        failedWheels := failedWheels + c.created;
      } else {
        survivors := survivors + [a];
      }
      wheelRequests := wheelRequests + c.requests;
      attempts := attempts + [a];
      n := n + 1;
    }
    assert groups[..n] == groups;
  }

  /** The wheelstack creation loop over the surviving groups, pushing the rows of each created wheelstack. */
  method CreateWheelstacks(correct: RedisList<LedgerRow>, platformId: Id, survivors: seq<Attempt>, stack: StackOracle)
    returns (p: StackPhase)
    modifies correct
    ensures p == StackLoop(platformId, survivors, stack)
    ensures correct.items == old(correct.items) + p.pushed
  {
    p := StackPhase([], [], [], []);
    var m := 0;
    while m < |survivors|
      invariant 0 <= m <= |survivors|
      invariant p == StackLoop(platformId, survivors[..m], stack)
      invariant correct.items == old(correct.items) + p.pushed
    {
      var a := survivors[m];
      StackLoopSnoc(platformId, survivors[..m], a, stack);
      assert survivors[..m + 1] == survivors[..m] + [a];
      p := CreateWheelstack(correct, platformId, a, stack, p, old(correct.items));
      m := m + 1;
    }
    assert survivors[..m] == survivors;
  }

  /** One iteration of the wheelstack loop: the POST, then on 201 the RPUSH of the group's rows. */
  method CreateWheelstack(correct: RedisList<LedgerRow>, platformId: Id, a: Attempt, stack: StackOracle, p: StackPhase,
                          ghost base: seq<LedgerRow>)
    returns (next: StackPhase)
    requires correct.items == base + p.pushed
    modifies correct
    ensures next == StackStep(p, platformId, a, stack)
    ensures correct.items == base + next.pushed
  {
    var batchNumber := FindBatchNumber(a.group.slots);
    var req := WheelstackRequest(
      platformId, STANDARD_PLACEMENT_STATUS, a.group.row, a.group.col, WHEELSTACK_MAX_SIZE,
      batchNumber, false, STANDARD_PLACEMENT_STATUS, a.creation.created);
    var resp := stack(req);
    if resp.statusCode != CREATED {
      next := StackPhase(p.requests + [req], p.created, p.failed + req.wheels, p.pushed);
    } else {
      PushRows(correct, a.group.slots);
      next := StackPhase(p.requests + [req], p.created + [resp.id], p.failed, p.pushed + NonNull(a.group.slots));
      assert base + p.pushed + NonNull(a.group.slots) == base + next.pushed;
    }
  }

  /**
   * sql_transfer_wheels. `platform` is the `_id` the platform lookup returned
   * (`None` when the response was not ok); `readTime` is the clock reading of
   * get_wheels_data. The two nested loops over `wheelstacks_data` are one loop
   * over its groups in visiting order.
   */
  method SqlTransferWheels(
    db: Database, correct: RedisList<LedgerRow>, failedQueue: RedisList<Id>,
    platform: Option<Id>, readTime: Timestamp, create: WheelOracle, stack: StackOracle)
    returns (run: ForwardRun)
    requires AllInSlotRange(ReadPending(db.readTable, readTime))
    modifies correct, failedQueue
    ensures run == Forward(ReadPending(db.readTable, readTime), platform, create, stack)
    ensures correct.items == old(correct.items) + run.acked
    ensures failedQueue.items == old(failedQueue.items) + run.failedPushed
  {
    if platform.None? {
      return ForwardRun(PlatformNotFound, [], [], [], [], 0, false);
    }
    var wheels := db.GetWheelsData(readTime);
    if wheels == [] {
      return ForwardRun(NothingPending, [], [], [], [], 0, false);
    }
    var ws := GroupWheels(wheels);
    var attempts, failedWheels, wheelRequests, survivors := CreateAllWheels(Groups(ws), create);
    var p := CreateWheelstacks(correct, platform.value, survivors, stack);
    failedWheels := failedWheels + p.failed;
    PushIds(failedQueue, failedWheels);
    run := ForwardRun(Synced(p.created, failedWheels), wheelRequests, p.requests, p.pushed,
                      failedWheels, |p.created|, failedWheels != []);
  }
}
