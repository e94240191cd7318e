/** The values a callback of the SkeletonI2C controller works on while it holds
    the device lock, and what each critical section makes of them. */
module SpbCore {

  // ---------------------------------------------------------------------
  // Data

  datatype Status = Success | Cancelled | NoSuchDevice | Unsuccessful | InvalidParameter | TransferError

  datatype RequestKind = Read | Write | Sequence

  datatype Position = Single | First | Continue | Last

  datatype BusCondition = Free | Busy | DontCare

  datatype Settings = Settings(busCondition: BusCondition, isStart: bool, isEnd: bool)

  /** A word of hardware flags, as the set of its bits. */
  type Bits = set<nat>

  /** The status flags of the controller; the sample leaves them all zero. */
  datatype Flags = Flags(addressNack: Bits, dataNack: Bits, genericError: Bits, transferComplete: Bits)

  const MAX_TRANSFER_LENGTH: nat := 0x1000

  /** One transfer of a request, as the framework describes it. */
  datatype Descriptor = Descriptor(length: nat, delayInUs: nat, toDevice: bool)

  /** The driver's context of a request. */
  datatype Context = Context(
    kind: RequestKind,
    transferCount: nat,
    transferIndex: nat,
    totalInformation: nat,
    status: Status,
    ioComplete: bool,
    length: nat,
    position: Position,
    settings: Settings,
    toDevice: bool,
    delayInUs: nat,
    dataReadyFlag: Bits,
    information: nat)

  /** The framework's view of the cancellation of a request. A request that was
      cancelled while it was cancelable gets one cancel callback, and can not be
      unmarked any more. */
  datatype CancelState = NotMarked | CancelledEarly | Cancelable | Requested | Delivered | Released

  /** Why a transfer ended. */
  datatype Cause = Started | Interrupt | Cancel

  /** What the driver traces about the transfers of a request. */
  datatype Entry =
    | Configured(index: nat, settings: Settings, length: nat, toDevice: bool)
    | Finished(index: nat, bytes: nat, length: nat, aborted: bool, cause: Cause)

  /** The state a critical section reads and writes on behalf of one request:
      its context, whether it is its target's current request, whether that
      target is the device's current target, and the device fields. */
  datatype Core = Core(
    ctx: Context,
    cancel: CancelState,
    trace: seq<Entry>,
    current: bool,
    owned: bool,
    armed: bool,
    mask: Bits,
    interruptStatus: Bits)

  /** What moving data once comes to: a number of bytes, and success or not. */
  datatype TransferOutcome = TransferOutcome(bytes: nat, ok: bool)

  // ---------------------------------------------------------------------
  // Positions and settings

  function TransferSettings(p: Position): Settings {
    match p
    case Single => Settings(Free, true, true)
    case First => Settings(Free, true, false)
    case Continue => Settings(Busy, false, false)
    case Last => Settings(Busy, false, true)
  }

  function SequencePosition(count: nat, index: nat): Position {
    if count == 1 then Single
    else if index == 0 then First
    else if index == count - 1 then Last
    else Continue
  }

  /** The start and the stop condition surround the whole sequence, and the bus
      is held from the second transfer on. */
  lemma SequenceSettings(count: nat, index: nat)
    requires index < count
    ensures
      var s := TransferSettings(SequencePosition(count, index));
      && (s.isStart <==> index == 0)
      && (s.isEnd <==> index == count - 1)
      && s.busCondition == (if index == 0 then Free else Busy)
  {
  }

  function PositionAt(ctx: Context, index: nat): Position {
    if ctx.kind == Sequence then SequencePosition(ctx.transferCount, index) else ctx.position
  }

  /** The request gives up the controller when it is done: it did not come
      between a lock and an unlock. */
  predicate ReleasesTarget(ctx: Context) {
    ctx.kind == Sequence || ctx.position == Single
  }

  // ---------------------------------------------------------------------
  // Critical sections, in closed form

  /** The context set up for a transfer. */
  function LoadedContext(ctx: Context, descriptors: seq<Descriptor>, index: nat): Context
    requires index < |descriptors|
  {
    var d := descriptors[index];
    ctx.(length := d.length, information := 0, toDevice := d.toDevice, delayInUs := d.delayInUs,
         position := PositionAt(ctx, index))
  }

  /** A context the framework has just cleared. */
  function ClearedContext(dataReadyFlag: Bits): Context {
    Context(Read, 0, 0, 0, Success, false, 0, Single, Settings(Free, false, false), false, 0, dataReadyFlag, 0)
  }

  /** The context of a request as its dispatch initializes it. */
  function InitialContext(ctx: Context, kind: RequestKind, position: Position, transferCount: nat): Context {
    ctx.(kind := kind, position := position, totalInformation := 0, transferCount := transferCount,
         transferIndex := 0, ioComplete := false)
  }

  /** The context a request starts its first transfer with. */
  function StartContext(ctx: Context, kind: RequestKind, position: Position, descriptors: seq<Descriptor>): Context
    requires |descriptors| > 0
  {
    LoadedContext(InitialContext(ctx, kind, position, |descriptors|), descriptors, 0)
  }

  /** A transfer of the request is more than the controller takes. */
  predicate TooLong(descriptors: seq<Descriptor>) {
    exists i | 0 <= i < |descriptors| :: descriptors[i].length > MAX_TRANSFER_LENGTH
  }

  /** The first transfer from i on that has to wait for the delay timer, or the
      number of transfers when there is none. */
  function NextDelayed(descriptors: seq<Descriptor>, i: nat): (j: nat)
    requires i <= |descriptors|
    ensures i <= j <= |descriptors|
    ensures forall k | i <= k < j :: descriptors[k].delayInUs == 0
    ensures j < |descriptors| ==> descriptors[j].delayInUs > 0
    decreases |descriptors| - i
  {
    if i == |descriptors| || descriptors[i].delayInUs > 0 then i else NextDelayed(descriptors, i + 1)
  }

  /** What is traced when transfer i is configured. */
  function ConfiguredEntry(ctx: Context, descriptors: seq<Descriptor>, i: nat): Entry
    requires i < |descriptors|
  {
    Configured(i, TransferSettings(PositionAt(ctx, i)), descriptors[i].length, descriptors[i].toDevice)
  }

  /** Transfers i to j - 1, configured and finished one after the other. */
  function Burst(ctx: Context, descriptors: seq<Descriptor>, i: nat, j: nat): (t: seq<Entry>)
    requires i <= j <= |descriptors|
    decreases j - i
  {
    if i == j then []
    else
      [ConfiguredEntry(ctx, descriptors, i), Finished(i, 0, descriptors[i].length, false, Started)]
      + Burst(ctx, descriptors, i + 1, j)
  }

  /** The end of a request, unless a cancel callback is on its way for it. */
  function Settle(c: Core): Core {
    if c.ctx.status != Cancelled && c.cancel == Requested then c
    else
      c.(cancel := if c.ctx.status != Cancelled then Released else c.cancel,
         mask := {},
         current := false,
         owned := c.owned && !ReleasesTarget(c.ctx),
         ctx := c.ctx.(ioComplete := true))
  }

  /** The transfers up to j have run. */
  function RanUpTo(c: Core, descriptors: seq<Descriptor>, j: nat): Core
    requires c.ctx.transferIndex < j <= |descriptors|
  {
    c.(ctx := LoadedContext(c.ctx, descriptors, if j < |descriptors| then j else |descriptors| - 1).(
                transferIndex := j, status := Success, settings := TransferSettings(PositionAt(c.ctx, j - 1))),
       interruptStatus := {},
       trace := c.trace + Burst(c.ctx, descriptors, c.ctx.transferIndex, j))
  }

  /** Going on with the transfer whose turn it is: all transfers up to the next
      delayed one run at once; then the timer is started, or the request is over. */
  function Proceed(c: Core, descriptors: seq<Descriptor>): Core
    requires c.ctx.transferIndex < |descriptors| == c.ctx.transferCount
  {
    var i, n := c.ctx.transferIndex, |descriptors|;
    var j := NextDelayed(descriptors, i);
    if i == j then c.(ctx := LoadedContext(c.ctx, descriptors, i).(status := Success), armed := true)
    else if j < n then RanUpTo(c, descriptors, j).(armed := true)
    else Settle(RanUpTo(c, descriptors, j))
  }

  /** The transfer is over, and its bytes are counted. */
  function Counted(c: Core, abort: bool, cause: Cause): Core {
    var ctx := c.ctx;
    c.(ctx := ctx.(totalInformation := ctx.totalInformation + ctx.information, information := 0),
       trace := c.trace + [Finished(ctx.transferIndex, ctx.information, ctx.length, abort, cause)])
  }

  /** The current transfer is over. */
  function CompleteTransfer(c: Core, descriptors: seq<Descriptor>, abort: bool, cause: Cause): Core
    requires |descriptors| == c.ctx.transferCount
  {
    var c1 := Counted(c, abort, cause);
    if abort then Settle(c1) else Advance(c1, descriptors)
  }

  /** The turn passes to the next transfer, if there is one. */
  function Advance(c: Core, descriptors: seq<Descriptor>): Core
    requires |descriptors| == c.ctx.transferCount
  {
    var c1 := c.(ctx := c.ctx.(transferIndex := c.ctx.transferIndex + 1));
    if c1.ctx.transferIndex < c1.ctx.transferCount then Proceed(c1, descriptors) else Settle(c1)
  }

  /** The controller is set up for the current transfer. */
  function SetUp(c: Core): Core {
    var ctx := c.ctx.(settings := TransferSettings(c.ctx.position), status := Success);
    c.(ctx := ctx, interruptStatus := {},
       trace := c.trace + [Configured(ctx.transferIndex, ctx.settings, ctx.length, ctx.toDevice)])
  }

  /** The transfer is started, which the sample completes at once. */
  function ConfigureForTransfer(c: Core, descriptors: seq<Descriptor>): Core
    requires |descriptors| == c.ctx.transferCount
  {
    CompleteTransfer(SetUp(c), descriptors, false, Started)
  }

  function DoTransfer(c: Core, descriptors: seq<Descriptor>): Core
    requires |descriptors| == c.ctx.transferCount
  {
    if c.ctx.delayInUs > 0 then c.(armed := true) else ConfigureForTransfer(c, descriptors)
  }

  /** Moving data: never more than the transfer has left. */
  function Moved(ctx: Context, o: TransferOutcome): Context {
    if ctx.information + o.bytes <= ctx.length then ctx.(information := ctx.information + o.bytes)
    else if ctx.information <= ctx.length then ctx.(information := ctx.length)
    else ctx
  }

  predicate TestAnyBits(a: Bits, b: Bits) {
    a * b != {}
  }

  /** Whether an interrupt ends the transfer with an error that drops its bytes. */
  predicate DropsBytes(flags: Flags, stat: Bits) {
    TestAnyBits(stat, flags.addressNack) ||
    (!TestAnyBits(stat, flags.dataNack) && TestAnyBits(stat, flags.genericError))
  }

  function ProcessInterrupts(c: Core, descriptors: seq<Descriptor>, flags: Flags, stat: Bits,
                             first: TransferOutcome, second: TransferOutcome): Core
    requires |descriptors| == c.ctx.transferCount
  {
    if TestAnyBits(stat, flags.addressNack) then
      CompleteTransfer(c.(ctx := c.ctx.(status := NoSuchDevice, information := 0)), descriptors, true, Interrupt)
    else if TestAnyBits(stat, flags.dataNack) then
      CompleteTransfer(c.(ctx := c.ctx.(status := Success)), descriptors, true, Interrupt)
    else if TestAnyBits(stat, flags.genericError) then
      CompleteTransfer(c.(ctx := c.ctx.(status := Unsuccessful, information := 0)), descriptors, true, Interrupt)
    else ProcessData(c, descriptors, flags, stat, first, second)
  }

  /** An interrupt without an error: data to move, the end of a transfer, or both. */
  function ProcessData(c: Core, descriptors: seq<Descriptor>, flags: Flags, stat: Bits,
                       first: TransferOutcome, second: TransferOutcome): Core
    requires |descriptors| == c.ctx.transferCount
  {
    var ready := TestAnyBits(stat, c.ctx.dataReadyFlag);
    var c1 := if ready then c.(ctx := Moved(c.ctx, first)) else c;
    if ready && !first.ok then
      CompleteTransfer(c1.(ctx := c1.ctx.(status := TransferError)), descriptors, true, Interrupt)
    else
      var c2 := if ready && c1.ctx.length == c1.ctx.information
                then c1.(mask := c1.mask - c1.ctx.dataReadyFlag) else c1;
      if TestAnyBits(stat, flags.transferComplete) then ProcessEnd(c2, descriptors, second) else c2
  }

  /** The end of a transfer, with what is left of its data. */
  function ProcessEnd(c: Core, descriptors: seq<Descriptor>, second: TransferOutcome): Core
    requires |descriptors| == c.ctx.transferCount
  {
    if c.ctx.length == c.ctx.information then CompleteTransfer(c, descriptors, false, Interrupt)
    else
      var c3 := c.(ctx := Moved(c.ctx, second));
      if second.ok then CompleteTransfer(c3, descriptors, false, Interrupt)
      else CompleteTransfer(c3.(ctx := c3.ctx.(status := TransferError)), descriptors, true, Interrupt)
  }

  /** A cancel callback that finds its request current. */
  function CancelCurrent(c: Core, descriptors: seq<Descriptor>): Core
    requires |descriptors| == c.ctx.transferCount
  {
    CompleteTransfer(c.(armed := false, interruptStatus := {}, ctx := c.ctx.(status := Cancelled)),
                     descriptors, true, Cancel)
  }

  // ---------------------------------------------------------------------
  // The closed form unrolls into the driver's recursion

  /** The transfer whose turn it is, loaded. */
  function Loaded(c: Core, descriptors: seq<Descriptor>): Core
    requires c.ctx.transferIndex < |descriptors|
  {
    c.(ctx := LoadedContext(c.ctx, descriptors, c.ctx.transferIndex).(status := Success))
  }

  /** Going on with a transfer is loading it and starting it. */
  lemma ProceedStep(c: Core, descriptors: seq<Descriptor>)
    requires c.ctx.transferIndex < |descriptors| == c.ctx.transferCount
    ensures Proceed(c, descriptors) == DoTransfer(Loaded(c, descriptors), descriptors)
  {
    var i := c.ctx.transferIndex;
    if descriptors[i].delayInUs == 0 {
      assert ConfigureForTransfer(Loaded(c, descriptors), descriptors) == Advance(RanOne(c, descriptors), descriptors);
      ProceedAgain(c, descriptors);
    }
  }

  /** The turn passes: the next transfer is loaded and started, or the request ends. */
  lemma AdvanceStep(c: Core, descriptors: seq<Descriptor>)
    requires |descriptors| == c.ctx.transferCount
    ensures
      var next := c.(ctx := c.ctx.(transferIndex := c.ctx.transferIndex + 1));
      Advance(c, descriptors) ==
        if next.ctx.transferIndex < |descriptors| then DoTransfer(Loaded(next, descriptors), descriptors)
        else Settle(next)
  {
    var next := c.(ctx := c.ctx.(transferIndex := c.ctx.transferIndex + 1));
    if next.ctx.transferIndex < |descriptors| {
      ProceedStep(next, descriptors);
    }
  }

  /** c after its transfer has been configured and finished. */
  function RanOne(c: Core, descriptors: seq<Descriptor>): Core
    requires c.ctx.transferIndex < |descriptors|
  {
    var i := c.ctx.transferIndex;
    var settings := TransferSettings(PositionAt(c.ctx, i));
    c.(ctx := LoadedContext(c.ctx, descriptors, i).(status := Success, settings := settings),
       interruptStatus := {},
       trace := c.trace + [ConfiguredEntry(c.ctx, descriptors, i)]
                + [Finished(i, 0, descriptors[i].length, false, Started)])
  }

  /** RanOne, with the turn passed on. */
  function Passed(c: Core, descriptors: seq<Descriptor>): Core
    requires c.ctx.transferIndex < |descriptors|
  {
    var ran := RanOne(c, descriptors);
    ran.(ctx := ran.ctx.(transferIndex := c.ctx.transferIndex + 1))
  }

  lemma ProceedAgain(c: Core, descriptors: seq<Descriptor>)
    requires c.ctx.transferIndex < |descriptors| == c.ctx.transferCount
    requires descriptors[c.ctx.transferIndex].delayInUs == 0
    ensures Proceed(c, descriptors) == Advance(RanOne(c, descriptors), descriptors)
  {
    var i := c.ctx.transferIndex;
    var j := NextDelayed(descriptors, i + 1);
    assert j == NextDelayed(descriptors, i);
    AdvancePasses(c, descriptors);
    if j > i + 1 {
      RanOn(c, descriptors, j);
    } else {
      RanJustOne(c, descriptors);
    }
  }

  lemma AdvancePasses(c: Core, descriptors: seq<Descriptor>)
    requires c.ctx.transferIndex < |descriptors| == c.ctx.transferCount
    ensures
      var next := Passed(c, descriptors);
      Advance(RanOne(c, descriptors), descriptors) ==
        if next.ctx.transferIndex < |descriptors| then Proceed(next, descriptors) else Settle(next)
  {
  }

  /** Running on from the next transfer is running on from this one. */
  lemma RanOn(c: Core, descriptors: seq<Descriptor>, j: nat)
    requires c.ctx.transferIndex + 1 < j <= |descriptors| == c.ctx.transferCount
    ensures RanUpTo(Passed(c, descriptors), descriptors, j) == RanUpTo(c, descriptors, j)
  {
    var next := Passed(c, descriptors);
    BurstFirst(c, next.ctx, descriptors, j);
    assert PositionAt(c.ctx, j - 1) == PositionAt(next.ctx, j - 1);
  }

  lemma RanJustOne(c: Core, descriptors: seq<Descriptor>)
    requires c.ctx.transferIndex < |descriptors| == c.ctx.transferCount
    ensures
      var i, next := c.ctx.transferIndex, Passed(c, descriptors);
      RanUpTo(c, descriptors, i + 1) ==
        if i + 1 < |descriptors| then
          next.(ctx := LoadedContext(next.ctx, descriptors, i + 1).(status := Success))
        else next
  {
    BurstFirst(c, Passed(c, descriptors).ctx, descriptors, c.ctx.transferIndex + 1);
  }

  lemma BurstFirst(c: Core, next: Context, descriptors: seq<Descriptor>, j: nat)
    requires c.ctx.transferIndex < j <= |descriptors| == c.ctx.transferCount
    requires next == RanOne(c, descriptors).ctx.(transferIndex := c.ctx.transferIndex + 1)
    ensures c.trace + Burst(c.ctx, descriptors, c.ctx.transferIndex, j) ==
            RanOne(c, descriptors).trace + Burst(next, descriptors, c.ctx.transferIndex + 1, j)
    ensures j == c.ctx.transferIndex + 1 ==>
              c.trace + Burst(c.ctx, descriptors, c.ctx.transferIndex, j) == RanOne(c, descriptors).trace
  {
    BurstContext(c.ctx, next, descriptors, c.ctx.transferIndex + 1, j);
  }

  lemma {:induction false} BurstContext(a: Context, b: Context, descriptors: seq<Descriptor>, i: nat, j: nat)
    requires i <= j <= |descriptors|
    requires a.kind == b.kind && a.transferCount == b.transferCount
    requires a.kind != Sequence ==> a.position == b.position
    ensures Burst(a, descriptors, i, j) == Burst(b, descriptors, i, j)
    decreases j - i
  {
    if i < j {
      BurstContext(a, b, descriptors, i + 1, j);
    }
  }
}
