/** The SkeletonI2C driver: its context objects and its callbacks. A callback is
    its critical section under the device lock; what it still completes after
    the lock has been released is its result. */
module SpbDriver {
  import opened SpbCore

  class Device {
    var currentTarget: Target?
    var interruptMask: Bits
    var interruptStatus: Bits
    /** The delay timer is started and has not run out. */
    var timerStarted: bool

    constructor ()
      ensures currentTarget == null && !timerStarted && interruptStatus == {}
    {
      currentTarget, timerStarted := null, false;
      interruptMask, interruptStatus := {}, {};
    }
  }

  class Target {
    /** Which target it is. */
    const id: nat
    var currentRequest: Request?

    constructor (id: nat)
      ensures this.id == id && currentRequest == null
    {
      this.id := id;
      currentRequest := null;
    }
  }

  class Request {
    // What the framework knows about the request.
    const id: nat
    const descriptors: seq<Descriptor>
    const target: Target
    var cancel: CancelState
    var completions: nat
    var reportedStatus: Status
    var reportedInformation: nat

    // The driver's context.
    var kind: RequestKind
    var transferCount: nat
    var transferIndex: nat
    var totalInformation: nat
    var status: Status
    var ioComplete: bool
    var length: nat
    var sequencePosition: Position
    var settings: Settings
    var toDevice: bool
    var delayInUs: nat
    var dataReadyFlag: Bits
    var information: nat

    // What has been traced about its transfers.
    ghost var trace: seq<Entry>

    ghost function Ctx(): Context
      reads this
    {
      Context(kind, transferCount, transferIndex, totalInformation, status, ioComplete, length, sequencePosition,
              settings, toDevice, delayInUs, dataReadyFlag, information)
    }

    /** A fresh request; the framework clears the context. */
    constructor (id: nat, target: Target, descriptors: seq<Descriptor>, dataReadyFlag: Bits)
      ensures this.id == id && this.target == target && this.descriptors == descriptors
      ensures cancel == NotMarked && completions == 0 && trace == []
      ensures Ctx() == ClearedContext(dataReadyFlag)
    {
      this.id, this.target, this.descriptors := id, target, descriptors;
      cancel, completions, reportedStatus, reportedInformation := NotMarked, 0, Success, 0;
      kind, transferCount, transferIndex, totalInformation := Read, 0, 0, 0;
      status, ioComplete, length, information := Success, false, 0, 0;
      sequencePosition, settings := Single, Settings(Free, false, false);
      toDevice, delayInUs, trace := false, 0, [];
      this.dataReadyFlag := dataReadyFlag;
    }

    // -------------------------------------------------------------------
    // Services of the framework

    method MarkCancelable() returns (result: Status)
      requires cancel == NotMarked || cancel == CancelledEarly
      modifies this`cancel
      ensures old(cancel) == CancelledEarly ==> result == Cancelled && cancel == CancelledEarly
      ensures old(cancel) == NotMarked ==> result == Success && cancel == Cancelable
    {
      if cancel == CancelledEarly {
        return Cancelled;
      }
      cancel := Cancelable;
      return Success;
    }

    method UnmarkCancelable() returns (result: Status)
      requires cancel == Cancelable || cancel == Requested
      modifies this`cancel
      ensures old(cancel) == Requested ==> result == Cancelled && cancel == Requested
      ensures old(cancel) == Cancelable ==> result == Success && cancel == Released
    {
      if cancel == Requested {
        return Cancelled;
      }
      cancel := Released;
      return Success;
    }

    method SpbRequestComplete(result: Status, information: nat)
      modifies this`completions, this`reportedStatus, this`reportedInformation
      ensures completions == old(completions) + 1
      ensures reportedStatus == result && reportedInformation == information
    {
      completions := completions + 1;
      reportedStatus, reportedInformation := result, information;
    }
  }

  /** What a critical section works on for a request. */
  ghost function CoreOf(d: Device, r: Request): Core
    reads d, r, r.target
  {
    Core(r.Ctx(), r.cancel, r.trace, r.target.currentRequest == r, d.currentTarget == r.target,
         d.timerStarted, d.interruptMask, d.interruptStatus)
  }

  /** Where the request is not the current one, there is no current one. */
  ghost predicate NothingElse(d: Device, r: Request)
    reads d, r, r.target
  {
    && (r.target.currentRequest == r || r.target.currentRequest == null)
    && (d.currentTarget == r.target || d.currentTarget == null)
  }

  /** The request that is being worked on. */
  ghost predicate Active(d: Device, r: Request)
    reads d, r, r.target
  {
    && d.currentTarget == r.target && r.target.currentRequest == r
    && r.transferCount == |r.descriptors| && r.transferCount > 0
  }

  ghost predicate CanBeUnmarked(r: Request)
    reads r
  {
    r.cancel == Cancelable || r.cancel == Requested
  }

  // ---------------------------------------------------------------------
  // The transfer engine

  method PbcRequestConfigureForIndex(r: Request, index: nat) returns (status: Status)
    requires index < |r.descriptors|
    modifies r
    ensures status == Success
    ensures r.Ctx() == LoadedContext(old(r.Ctx()), r.descriptors, index)
    ensures r.cancel == old(r.cancel) && r.trace == old(r.trace)
    ensures r.completions == old(r.completions)
  {
    var descriptor := r.descriptors[index];
    r.length := descriptor.length;
    r.information := 0;
    r.toDevice := descriptor.toDevice;
    r.delayInUs := descriptor.delayInUs;
    if r.kind == Sequence {
      if r.transferCount == 1 {
        r.sequencePosition := Single;
      } else if index == 0 {
        r.sequencePosition := First;
      } else if index == r.transferCount - 1 {
        r.sequencePosition := Last;
      } else {
        r.sequencePosition := Continue;
      }
    }
    return Success;
  }

  method PbcRequestDoTransfer(d: Device, r: Request)
    requires Active(d, r) && CanBeUnmarked(r)
    requires r.transferIndex < r.transferCount
    modifies d, r, r.target
    ensures CoreOf(d, r) == DoTransfer(old(CoreOf(d, r)), r.descriptors)
    ensures NothingElse(d, r) && r.completions == old(r.completions)
    decreases r.transferCount - r.transferIndex, 3
  {
    if r.delayInUs > 0 {
      d.timerStarted := true;
    } else {
      ControllerConfigureForTransfer(d, r);
    }
  }

  method ControllerConfigureForTransfer(d: Device, r: Request)
    requires Active(d, r) && CanBeUnmarked(r)
    modifies d, r, r.target
    ensures CoreOf(d, r) == ConfigureForTransfer(old(CoreOf(d, r)), r.descriptors)
    ensures NothingElse(d, r) && r.completions == old(r.completions)
    decreases if r.transferIndex < r.transferCount then r.transferCount - r.transferIndex else 0, 2
  {
    ghost var c := CoreOf(d, r);
    r.settings := TransferSettings(r.sequencePosition);
    r.status := Success;
    d.interruptStatus := {};
    r.trace := r.trace + [Configured(r.transferIndex, r.settings, r.length, r.toDevice)];
    assert CoreOf(d, r) == SetUp(c);
    ControllerCompleteTransfer(d, r, false, Started);
  }

  /** The recursion through the next transfers is the closed form. */
  method ControllerCompleteTransfer(d: Device, r: Request, abortSequence: bool, ghost cause: Cause)
    requires Active(d, r)
    requires CanBeUnmarked(r) || (abortSequence && r.status == Cancelled)
    modifies d, r, r.target
    ensures CoreOf(d, r) == CompleteTransfer(old(CoreOf(d, r)), r.descriptors, abortSequence, cause)
    ensures NothingElse(d, r) && r.completions == old(r.completions)
    decreases if r.transferIndex < r.transferCount then r.transferCount - r.transferIndex else 0, 1
  {
    r.trace := r.trace + [Finished(r.transferIndex, r.information, r.length, abortSequence, cause)];
    r.totalInformation := r.totalInformation + r.information;
    r.information := 0;
    assert CoreOf(d, r) == Counted(old(CoreOf(d, r)), abortSequence, cause);
    if abortSequence {
      EndRequest(d, r);
    } else {
      AdvanceTransfer(d, r);
    }
  }

  /** The next transfer of the request is configured. */
  method LoadTransfer(ghost d: Device, r: Request)
    requires r.transferIndex < |r.descriptors|
    modifies r
    ensures CoreOf(d, r) == Loaded(old(CoreOf(d, r)), r.descriptors)
    ensures r.completions == old(r.completions)
  {
    r.status := PbcRequestConfigureForIndex(r, r.transferIndex);
  }

  /** The rest of a transfer's completion when the sequence goes on. */
  method AdvanceTransfer(d: Device, r: Request)
    requires Active(d, r) && CanBeUnmarked(r)
    modifies d, r, r.target
    ensures CoreOf(d, r) == Advance(old(CoreOf(d, r)), r.descriptors)
    ensures NothingElse(d, r) && r.completions == old(r.completions)
    decreases if r.transferIndex < r.transferCount then r.transferCount - r.transferIndex else 0, 0
  {
    ghost var c := CoreOf(d, r);
    ghost var next := c.(ctx := c.ctx.(transferIndex := c.ctx.transferIndex + 1));
    r.transferIndex := r.transferIndex + 1;
    assert CoreOf(d, r) == next;
    AdvanceStep(c, r.descriptors);
    if r.transferIndex < r.transferCount {
      LoadTransfer(d, r);
      if r.status == Success {
        PbcRequestDoTransfer(d, r);
        assert CoreOf(d, r) == DoTransfer(Loaded(next, r.descriptors), r.descriptors);
        return;
      }
    }
    EndRequest(d, r);
  }

  /** The end of the request, unless its cancel callback is to see to that. */
  method EndRequest(d: Device, r: Request)
    requires Active(d, r) && (CanBeUnmarked(r) || r.status == Cancelled)
    modifies d, r, r.target
    ensures CoreOf(d, r) == Settle(old(CoreOf(d, r)))
    ensures NothingElse(d, r) && r.completions == old(r.completions)
  {
    if r.status != Cancelled {
      var cancelStatus := r.UnmarkCancelable();
      if cancelStatus != Success {
        return;
      }
    }
    d.interruptMask := {};
    d.currentTarget.currentRequest := null;
    if r.kind == Sequence || r.sequencePosition == Single {
      d.currentTarget := null;
    }
    r.ioComplete := true;
  }

  /** The part of the driver that is left to be written moves some of the bytes
      that remain. */
  method ControllerTransferData(r: Request, outcome: TransferOutcome) returns (status: Status)
    modifies r`information
    ensures r.Ctx() == Moved(old(r.Ctx()), outcome)
    ensures status == if outcome.ok then Success else TransferError
  {
    if r.information < r.length {
      var remaining := r.length - r.information;
      r.information := r.information + (if outcome.bytes <= remaining then outcome.bytes else remaining);
    }
    return if outcome.ok then Success else TransferError;
  }

  method ControllerProcessInterrupts(d: Device, r: Request, flags: Flags, stat: Bits,
                                     first: TransferOutcome, second: TransferOutcome)
    requires Active(d, r) && CanBeUnmarked(r)
    modifies d, r, r.target
    ensures CoreOf(d, r) == ProcessInterrupts(old(CoreOf(d, r)), r.descriptors, flags, stat, first, second)
    ensures NothingElse(d, r) && r.completions == old(r.completions)
  {
    if TestAnyBits(stat, flags.addressNack) {
      r.status := NoSuchDevice;
      r.information := 0;
      ControllerCompleteTransfer(d, r, true, Interrupt);
    } else if TestAnyBits(stat, flags.dataNack) {
      r.status := Success;
      ControllerCompleteTransfer(d, r, true, Interrupt);
    } else if TestAnyBits(stat, flags.genericError) {
      r.status := Unsuccessful;
      r.information := 0;
      ControllerCompleteTransfer(d, r, true, Interrupt);
    } else {
      ControllerProcessData(d, r, flags, stat, first, second);
    }
  }

  /** The part of it that deals with data and with the end of a transfer. */
  method ControllerProcessData(d: Device, r: Request, flags: Flags, stat: Bits,
                               first: TransferOutcome, second: TransferOutcome)
    requires Active(d, r) && CanBeUnmarked(r)
    modifies d, r, r.target
    ensures CoreOf(d, r) == ProcessData(old(CoreOf(d, r)), r.descriptors, flags, stat, first, second)
    ensures NothingElse(d, r) && r.completions == old(r.completions)
  {
    if TestAnyBits(stat, r.dataReadyFlag) {
      var status := ControllerTransferData(r, first);
      if status != Success {
        r.status := status;
        ControllerCompleteTransfer(d, r, true, Interrupt);
        return;
      }
      if r.length == r.information {
        d.interruptMask := d.interruptMask - r.dataReadyFlag;
      }
    }
    if TestAnyBits(stat, flags.transferComplete) {
      ControllerProcessEnd(d, r, second);
    }
  }

  method ControllerProcessEnd(d: Device, r: Request, second: TransferOutcome)
    requires Active(d, r) && CanBeUnmarked(r)
    modifies d, r, r.target
    ensures CoreOf(d, r) == ProcessEnd(old(CoreOf(d, r)), r.descriptors, second)
    ensures NothingElse(d, r) && r.completions == old(r.completions)
  {
    var status := Success;
    if r.length != r.information {
      status := ControllerTransferData(r, second);
    }
    if status == Success {
      ControllerCompleteTransfer(d, r, false, Interrupt);
    } else {
      r.status := status;
      ControllerCompleteTransfer(d, r, true, Interrupt);
    }
  }

  // ---------------------------------------------------------------------
  // Callbacks

  method OnControllerLock(d: Device, t: Target)
    requires d.currentTarget == null
    modifies d`currentTarget
    ensures d.currentTarget == t
  {
    assert d.currentTarget == null;
    d.currentTarget := t;
  }

  method OnControllerUnlock(d: Device, t: Target)
    requires d.currentTarget == t
    modifies d`currentTarget
    ensures d.currentTarget == null
  {
    assert d.currentTarget == t;
    d.currentTarget := null;
  }

  /** The request the device is working on, if any. */
  ghost function CurrentRequest(d: Device): Request?
    reads d, d.currentTarget
  {
    if d.currentTarget == null then null else d.currentTarget.currentRequest
  }

  method PbcRequestValidate(r: Request) returns (status: Status)
    requires r.transferCount <= |r.descriptors|
    ensures status == if TooLong(r.descriptors[..r.transferCount]) then InvalidParameter else Success
  {
    var i := 0;
    while i < r.transferCount
      invariant i <= r.transferCount
      invariant forall k | 0 <= k < i :: r.descriptors[k].length <= MAX_TRANSFER_LENGTH
    {
      if r.descriptors[i].length > MAX_TRANSFER_LENGTH {
        assert r.descriptors[..r.transferCount][i] == r.descriptors[i];
        return InvalidParameter;
      }
      i := i + 1;
    }
    return Success;
  }

  /** The request is taken on: it can still be cancelled, and every transfer of
      it fits the controller. */
  ghost predicate Accepts(r: Request)
    reads r
  {
    r.cancel == NotMarked && !TooLong(r.descriptors)
  }

  /** What a request that is taken on starts from. */
  ghost function StartCore(c: Core, kind: RequestKind, position: Position, descriptors: seq<Descriptor>): Core
    requires |descriptors| > 0
  {
    c.(ctx := StartContext(c.ctx, kind, position, descriptors), cancel := Cancelable, current := true, owned := true)
  }

  /** A request that is not taken on is answered at once, and nothing else. */
  twostate predicate Refused(d: Device, r: Request, kind: RequestKind, position: Position)
    requires |r.descriptors| > 0
    reads d, r, r.target
  {
    && r.Ctx() == (if TooLong(r.descriptors) then InitialContext(old(r.Ctx()), kind, position, |r.descriptors|)
                   else StartContext(old(r.Ctx()), kind, position, r.descriptors))
    && r.cancel == old(r.cancel) && r.trace == old(r.trace)
    && r.completions == old(r.completions) + 1
    && r.reportedStatus == (if TooLong(r.descriptors) then InvalidParameter else Cancelled)
    && r.reportedInformation == 0
    && d.currentTarget == old(d.currentTarget) && d.timerStarted == old(d.timerStarted)
    && d.interruptMask == old(d.interruptMask) && d.interruptStatus == old(d.interruptStatus)
    && r.target.currentRequest == old(r.target.currentRequest)
  }

  /** Initializing, validating and configuring a request before the lock is taken. */
  method InitializeContext(r: Request, kind: RequestKind, position: Position) returns (status: Status)
    requires |r.descriptors| > 0
    modifies r
    ensures status == if TooLong(r.descriptors) then InvalidParameter else Success
    ensures r.Ctx() ==
            if status == Success then StartContext(old(r.Ctx()), kind, position, r.descriptors)
            else InitialContext(old(r.Ctx()), kind, position, |r.descriptors|)
    ensures r.cancel == old(r.cancel) && r.trace == old(r.trace) && r.completions == old(r.completions)
  {
    r.kind := kind;
    r.sequencePosition := position;
    r.totalInformation := 0;
    r.transferCount := |r.descriptors|;
    r.transferIndex := 0;
    r.ioComplete := false;
    assert r.descriptors[..r.transferCount] == r.descriptors;
    status := PbcRequestValidate(r);
    if status == Success {
      status := PbcRequestConfigureForIndex(r, 0);
    }
  }

  /** The locked part of the dispatch of a configured request. */
  method MarkAndStart(d: Device, t: Target, r: Request, takesTarget: bool) returns (status: Status)
    requires r.target == t && r.transferCount == |r.descriptors| > 0 && r.transferIndex == 0
    requires r.cancel == NotMarked || r.cancel == CancelledEarly
    requires d.currentTarget == (if takesTarget then null else t) && t.currentRequest == null
    modifies d, t, r
    ensures status == if old(r.cancel) == NotMarked then Success else Cancelled
    ensures status == Success ==>
              CoreOf(d, r) == DoTransfer(old(CoreOf(d, r)).(cancel := Cancelable, current := true, owned := true),
                                         r.descriptors)
    ensures status != Success ==> CoreOf(d, r) == old(CoreOf(d, r)) && d.currentTarget == old(d.currentTarget)
    ensures NothingElse(d, r) && r.completions == old(r.completions)
  {
    status := r.MarkCancelable();
    if status != Success {
      return;
    }
    assert d.currentTarget == if takesTarget then null else t;
    assert t.currentRequest == null;
    if takesTarget {
      d.currentTarget := t;
    }
    t.currentRequest := r;
    PbcRequestDoTransfer(d, r);
  }

  /** A read or a write, alone or between a lock and an unlock. The result says
      whether the request is to be completed once the lock is released. */
  method PbcRequestConfigureForNonSequence(d: Device, t: Target, r: Request, kind: RequestKind, position: Position)
    returns (completeRequest: bool)
    requires r.target == t && |r.descriptors| == 1 && kind != Sequence
    requires r.cancel == NotMarked || r.cancel == CancelledEarly
    requires d.currentTarget == (if position == Single then null else t) && t.currentRequest == null
    modifies d, t, r
    ensures old(Accepts(r)) ==>
              && CoreOf(d, r) == DoTransfer(StartCore(old(CoreOf(d, r)), kind, position, r.descriptors), r.descriptors)
              && completeRequest == r.ioComplete && r.completions == old(r.completions)
    ensures !old(Accepts(r)) ==> !completeRequest && Refused(d, r, kind, position)
    ensures NothingElse(d, r)
  {
    completeRequest := false;
    var status := InitializeContext(r, kind, position);
    if status == Success {
      status := MarkAndStart(d, t, r, r.sequencePosition == Single);
      if status == Success {
        return r.ioComplete;
      }
    }
    r.SpbRequestComplete(status, 0);
  }

  method OnSequence(d: Device, t: Target, r: Request, transferCount: nat) returns (completeRequest: bool)
    requires r.target == t && |r.descriptors| == transferCount > 0
    requires r.cancel == NotMarked || r.cancel == CancelledEarly
    requires d.currentTarget == null && t.currentRequest == null
    modifies d, t, r
    ensures old(Accepts(r)) ==>
              && CoreOf(d, r) ==
                 DoTransfer(StartCore(old(CoreOf(d, r)), Sequence, old(r.sequencePosition), r.descriptors),
                            r.descriptors)
              && completeRequest == r.ioComplete && r.completions == old(r.completions)
    ensures !old(Accepts(r)) ==> !completeRequest && Refused(d, r, Sequence, old(r.sequencePosition))
    ensures NothingElse(d, r)
  {
    completeRequest := false;
    var status := InitializeContext(r, Sequence, r.sequencePosition);
    if status == Success {
      status := MarkAndStart(d, t, r, true);
      if status == Success {
        return r.ioComplete;
      }
    }
    r.SpbRequestComplete(status, 0);
  }

  /** The delay timer's callback: it acts on whatever request is current, and on
      nothing when there is none. */
  method OnDelayTimerExpired(d: Device) returns (completed: Request?)
    requires CurrentRequest(d) != null ==> Active(d, CurrentRequest(d)) && CanBeUnmarked(CurrentRequest(d))
    modifies d, d.currentTarget, CurrentRequest(d)
    ensures old(CurrentRequest(d)) == null ==> completed == null && unchanged(d) && CurrentRequest(d) == null
    ensures
      var r := old(CurrentRequest(d));
      r != null ==>
        && CoreOf(d, r) == ConfigureForTransfer(old(CoreOf(d, CurrentRequest(d))), r.descriptors)
        && NothingElse(d, r) && r.completions == old(CurrentRequest(d).completions)
        && completed == (if r.ioComplete then r else null)
  {
    completed := null;
    var target := d.currentTarget;
    if target == null {
      return;
    }
    var r := target.currentRequest;
    if r == null {
      return;
    }
    ControllerConfigureForTransfer(d, r);
    if r.ioComplete {
      completed := r;
    }
  }

  method OnInterruptIsr(d: Device, stat: Bits) returns (recognized: bool)
    modifies d`interruptStatus
    ensures recognized == (stat != {}) && d.interruptStatus == old(d.interruptStatus) + stat
  {
    recognized := false;
    if stat != {} {
      recognized := true;
      d.interruptStatus := d.interruptStatus + stat;
    }
  }

  method OnInterruptDpc(d: Device, flags: Flags, first: TransferOutcome, second: TransferOutcome)
    returns (completed: Request?)
    requires
      CurrentRequest(d) != null ==>
        Active(d, CurrentRequest(d)) && CanBeUnmarked(CurrentRequest(d)) && !CurrentRequest(d).ioComplete
    modifies d, d.currentTarget, CurrentRequest(d)
    ensures old(CurrentRequest(d)) == null ==> completed == null && unchanged(d) && CurrentRequest(d) == null
    ensures
      var r, stat := old(CurrentRequest(d)), old(d.interruptStatus);
      r != null ==>
        && CoreOf(d, r) == (
             var c := old(CoreOf(d, CurrentRequest(d))).(interruptStatus := {});
             if stat == {} then c else ProcessInterrupts(c, r.descriptors, flags, stat, first, second))
        && NothingElse(d, r) && r.completions == old(CurrentRequest(d).completions)
        && completed == (if r.ioComplete then r else null)
  {
    completed := null;
    var target := d.currentTarget;
    if target == null {
      return;
    }
    var r := target.currentRequest;
    if r == null {
      return;
    }
    var stat := d.interruptStatus;
    d.interruptStatus := {};
    if stat == {} {
      return;
    }
    ControllerProcessInterrupts(d, r, flags, stat, first, second);
    if r.ioComplete {
      completed := r;
    }
  }

  /** The cancel callback. It gives up when its request is not current any more;
      otherwise it takes the request over and has it completed. */
  method OnCancel(d: Device, r: Request) returns (transferCompleted: bool)
    requires r.cancel == Requested
    requires r.transferCount == |r.descriptors| > 0
    modifies d, r, r.target
    ensures transferCompleted <==> old(d.currentTarget == r.target && r.target.currentRequest == r)
    ensures transferCompleted ==>
              && CoreOf(d, r) == CancelCurrent(old(CoreOf(d, r)).(cancel := Delivered), r.descriptors)
              && NothingElse(d, r) && r.ioComplete
    ensures !transferCompleted ==>
              && CoreOf(d, r) == old(CoreOf(d, r)).(cancel := Delivered)
              && d.currentTarget == old(d.currentTarget) && r.target.currentRequest == old(r.target.currentRequest)
    ensures r.completions == old(r.completions)
  {
    r.cancel := Delivered;
    if r.target != d.currentTarget {
      return false;
    }
    if r != r.target.currentRequest {
      return false;
    }
    d.timerStarted := false;
    d.interruptStatus := {};
    r.status := Cancelled;
    ControllerCompleteTransfer(d, r, true, Cancel);
    return true;
  }

  /** What a callback does after it has released the lock. */
  method PbcRequestComplete(r: Request)
    modifies r`completions, r`reportedStatus, r`reportedInformation
    ensures r.completions == old(r.completions) + 1
    ensures r.reportedStatus == r.status && r.reportedInformation == r.totalInformation
  {
    r.SpbRequestComplete(r.status, r.totalInformation);
  }
}
