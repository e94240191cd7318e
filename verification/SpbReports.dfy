/** What the status of a completed request says about its transfers, in every run. */
module SpbReports {
  import opened CaseFold
  import opened SpbCore
  import opened SpbInvariant
  import opened SpbRuns
  import opened SpbSafety
  import opened SpbSteps

  /** How the last transfer of a request that was taken on ended, by the status,
      and the flags without which it is never that status. */
  predicate StatusFits(status: Status, trace: seq<Entry>, flags: Flags) {
    && trace != [] && trace[|trace| - 1].Finished?
    && var last := trace[|trace| - 1];
       match status
       case Success => last.aborted ==> last.cause == Cause.Interrupt && flags.dataNack != {}
       case Cancelled => last.aborted && last.cause == Cause.Cancel
       case NoSuchDevice => last.aborted && last.cause == Cause.Interrupt && last.bytes == 0 && flags.addressNack != {}
       case Unsuccessful => last.aborted && last.cause == Cause.Interrupt && last.bytes == 0 && flags.genericError != {}
       case TransferError => last.aborted && last.cause == Cause.Interrupt
       case InvalidParameter => false
  }

  /** What a critical section leaves: a request that can go on without an error,
      or one whose status fits. */
  predicate Fits(c: Core, flags: Flags) {
    if c.current then c.cancel == Cancelable ==> c.ctx.status == Success else StatusFits(c.ctx.status, c.trace, flags)
  }

  lemma {:induction false} BurstEnds(ctx: Context, descriptors: seq<Descriptor>, i: nat, j: nat)
    requires i < j <= |descriptors|
    ensures
      var t := Burst(ctx, descriptors, i, j);
      t != [] && t[|t| - 1] == Finished(j - 1, 0, descriptors[j - 1].length, false, Started)
    decreases j - i
  {
    if i + 1 < j {
      BurstEnds(ctx, descriptors, i + 1, j);
    }
  }

  lemma SettleFits(c: Core, flags: Flags)
    requires c.current && (c.cancel == Cancelable ==> StatusFits(c.ctx.status, c.trace, flags))
    requires c.ctx.status == Cancelled ==> StatusFits(c.ctx.status, c.trace, flags)
    requires c.cancel == Cancelable || c.cancel == Requested || c.ctx.status == Cancelled
    ensures Fits(Settle(c), flags)
  {
  }

  lemma ProceedFits(c: Core, descriptors: seq<Descriptor>, flags: Flags)
    requires Going(c, descriptors, c.ctx.transferIndex) && c.ctx.transferIndex < |descriptors|
    ensures Fits(Proceed(c, descriptors), flags)
  {
    var i, n := c.ctx.transferIndex, |descriptors|;
    var j := NextDelayed(descriptors, i);
    if i < j {
      BurstEnds(c.ctx, descriptors, i, j);
    }
  }

  /** A transfer that ends without an abort. */
  lemma AdvanceFits(c: Core, descriptors: seq<Descriptor>, flags: Flags)
    requires Going(c, descriptors, c.ctx.transferIndex + 1)
    requires c.cancel == Cancelable ==> StatusFits(c.ctx.status, c.trace, flags)
    ensures Fits(Advance(c, descriptors), flags)
  {
    var next := c.(ctx := c.ctx.(transferIndex := c.ctx.transferIndex + 1));
    SameTraceOk(c.trace, c.ctx, next.ctx);
    if next.ctx.transferIndex < next.ctx.transferCount {
      ProceedFits(next, descriptors, flags);
    } else {
      SettleFits(next, flags);
    }
  }

  lemma ConfigureFits(c: Core, descriptors: seq<Descriptor>, flags: Flags)
    requires Live(c, descriptors)
    ensures Fits(ConfigureForTransfer(c, descriptors), flags)
  {
    StartedKeeps(c, descriptors);
    AdvanceFits(Counted(SetUp(c), false, Started), descriptors, flags);
  }

  /** A transfer that an interrupt ends. */
  lemma EndFits(c: Core, descriptors: seq<Descriptor>, flags: Flags)
    requires Live(c, descriptors) && (c.cancel == Cancelable ==> c.ctx.status == Success)
    ensures Fits(CompleteTransfer(c, descriptors, false, Cause.Interrupt), flags)
  {
    CountedKeeps(c, descriptors, false, Cause.Interrupt);
    AdvanceFits(Counted(c, false, Cause.Interrupt), descriptors, flags);
  }

  /** A transfer that an interrupt aborts. */
  lemma AbortFits(c: Core, descriptors: seq<Descriptor>, flags: Flags, status: Status, information: nat)
    requires Live(c, descriptors)
    requires status == TransferError || (status == Success && flags.dataNack != {})
             || (information == 0 && status == NoSuchDevice && flags.addressNack != {})
             || (information == 0 && status == Unsuccessful && flags.genericError != {})
    ensures Fits(CompleteTransfer(c.(ctx := c.ctx.(status := status, information := information)), descriptors, true,
                                  Cause.Interrupt), flags)
  {
    SettleFits(Counted(c.(ctx := c.ctx.(status := status, information := information)), true, Cause.Interrupt), flags);
  }

  lemma DataFits(c: Core, descriptors: seq<Descriptor>, flags: Flags, stat: Bits,
                 first: TransferOutcome, second: TransferOutcome)
    requires Live(c, descriptors) && Fits(c, flags)
    ensures Fits(ProcessData(c, descriptors, flags, stat, first, second), flags)
  {
    var ready := TestAnyBits(stat, c.ctx.dataReadyFlag);
    var c1 := if ready then c.(ctx := Moved(c.ctx, first)) else c;
    MovedKeeps(c, descriptors, first);
    if ready && !first.ok {
      AbortFits(c1, descriptors, flags, TransferError, c1.ctx.information);
    } else {
      var c2 := if ready && c1.ctx.length == c1.ctx.information
                then c1.(mask := c1.mask - c1.ctx.dataReadyFlag) else c1;
      if TestAnyBits(stat, flags.transferComplete) {
        LastDataFits(c2, descriptors, flags, second);
      }
    }
  }

  lemma LastDataFits(c: Core, descriptors: seq<Descriptor>, flags: Flags, second: TransferOutcome)
    requires Live(c, descriptors) && Fits(c, flags)
    ensures Fits(ProcessEnd(c, descriptors, second), flags)
  {
    MovedKeeps(c, descriptors, second);
    EndFits(c, descriptors, flags);
    var moved := c.(ctx := Moved(c.ctx, second));
    EndFits(moved, descriptors, flags);
    AbortFits(moved, descriptors, flags, TransferError, moved.ctx.information);
  }

  lemma InterruptFits(c: Core, descriptors: seq<Descriptor>, flags: Flags, stat: Bits,
                      first: TransferOutcome, second: TransferOutcome)
    requires Live(c, descriptors) && Fits(c, flags)
    ensures Fits(ProcessInterrupts(c, descriptors, flags, stat, first, second), flags)
  {
    if TestAnyBits(stat, flags.addressNack) {
      AbortFits(c, descriptors, flags, NoSuchDevice, 0);
    } else if TestAnyBits(stat, flags.dataNack) {
      AbortFits(c, descriptors, flags, Success, c.ctx.information);
    } else if TestAnyBits(stat, flags.genericError) {
      AbortFits(c, descriptors, flags, Unsuccessful, 0);
    } else {
      DataFits(c, descriptors, flags, stat, first, second);
    }
  }

  lemma CancelFits(c: Core, descriptors: seq<Descriptor>, flags: Flags)
    requires Live(c, descriptors)
    ensures Fits(CancelCurrent(c.(cancel := Delivered), descriptors), flags)
  {
  }

  // ---------------------------------------------------------------------
  // Over runs

  ghost predicate StatusOk(s: State, r: RequestId) {
    r in s.requests ==>
      var q := s.requests[r];
      if TakenOn(q) then
        && !TooLong(q.descriptors)
        && if CurrentOf(s) == Some(r) then q.cancel == Cancelable ==> q.ctx.status == Success
           else StatusFits(q.ctx.status, q.trace, s.flags)
      else
        && CurrentOf(s) != Some(r) && q.report.Some?
        && q.report.value.status == if TooLong(q.descriptors) then InvalidParameter else Cancelled
  }

  lemma CoreFits(s: State, e: Event, r: RequestId)
    requires Inv(s) && Enabled(s, e) && CurrentOf(s) == Some(r) && r in s.requests && Known(s, r)
    requires Live(CoreIn(s, r), s.requests[r].descriptors) && Fits(CoreIn(s, r), s.flags)
    ensures Fits(CoreStep(s, e, r), s.flags)
  {
    var c, descriptors := CoreIn(s, r), s.requests[r].descriptors;
    match e
    case TimerCallback => ConfigureFits(c, descriptors, s.flags);
    case Dpc(first, second) =>
      if s.interruptStatus != {} {
        var taken := c.(interruptStatus := {});
        LiveAnywhere(c, taken, descriptors);
        InterruptFits(taken, descriptors, s.flags, s.interruptStatus, first, second);
      }
    case CancelCallback(_) => CancelFits(c, descriptors, s.flags);
    case _ =>
  }

  /** What holds of a request's core holds of the request. */
  lemma FitsMoves(s: State, s': State, r: RequestId, c: Core)
    requires r in s.requests && TakenOn(s.requests[r]) && !TooLong(s.requests[r].descriptors) && s'.flags == s.flags
    requires HasCore(s', r, c) && SameIdentity(s, s', r) && Fits(c, s.flags)
    requires c.cancel != NotMarked && c.cancel != CancelledEarly
    ensures StatusOk(s', r)
  {
  }

  lemma CurrentFits(s: State, e: Event, r: RequestId)
    requires Inv(s) && Enabled(s, e) && CurrentOf(s) == Some(r) && StatusOk(s, r)
    ensures StatusOk(Step(s, e), r)
  {
    CurrentMoves(s, e, r);
    StepKeepsFlags(s, e);
    CoreFits(s, e, r);
    CoreKept(s, e, r);
    FitsMoves(s, Step(s, e), r, CoreStep(s, e, r));
  }

  lemma DispatchFits(s: State, e: Event)
    requires Inv(s) && Enabled(s, e) && e.Dispatch?
    ensures StatusOk(Step(s, e), e.r)
  {
    if TooLong(e.descriptors) || e.cancelledEarly {
      NothingCurrentWhenQuiet(s);
    } else {
      AcceptedFits(s, e);
    }
  }

  lemma AcceptedFits(s: State, e: Event)
    requires Inv(s) && Enabled(s, e) && e.Dispatch? && !TooLong(e.descriptors) && !e.cancelledEarly
    ensures StatusOk(Step(s, e), e.r)
  {
    TakenOk(s, e.r, e.t, e.kind, e.position, e.descriptors, e.dataReadyFlag);
    var taken := Taken(s, e.r, e.t, FirstContext(e.kind, e.position, e.descriptors, e.dataReadyFlag), e.descriptors);
    var c := CoreIn(taken, e.r);
    StartKeeps(c, e.descriptors);
    StartFits(c, e.descriptors, s.flags);
    PutFits(taken, e.r, DoTransfer(c, e.descriptors));
  }

  lemma PutFits(s: State, r: RequestId, c: Core)
    requires r in s.requests && s.requests[r].target in s.targets && (c.current ==> c.owned)
    requires TakenOn(s.requests[r]) && !TooLong(s.requests[r].descriptors) && Fits(c, s.flags)
    requires c.cancel != NotMarked && c.cancel != CancelledEarly
    ensures StatusOk(Put(s, r, c), r)
  {
    PutHasCore(s, r, c);
    FitsMoves(s, Put(s, r, c), r, c);
  }

  lemma StartFits(c: Core, descriptors: seq<Descriptor>, flags: Flags)
    requires Live(c, descriptors) && c.ctx.status == Success
    ensures Fits(DoTransfer(c, descriptors), flags)
  {
    if c.ctx.delayInUs == 0 {
      ConfigureFits(c, descriptors, flags);
    }
  }

  lemma StepFits(s: State, e: Event, r: RequestId)
    requires Inv(s) && Enabled(s, e) && StatusOk(s, r)
    ensures StatusOk(Step(s, e), r)
  {
    if CurrentOf(s) == Some(r) {
      CurrentFits(s, e, r);
    } else if r in s.requests {
      OtherStays(s, e, r);
      StepKeepsFlags(s, e);
    } else if e.Dispatch? && e.r == r {
      DispatchFits(s, e);
    } else {
      NothingNew(s, e, r);
    }
  }

  lemma {:induction false} RunFits(s: State, es: seq<Event>, r: RequestId)
    requires Inv(s) && Legal(s, es) && StatusOk(s, r)
    ensures StatusOk(After(s, es), r)
    decreases |es|
  {
    if es != [] {
      StepKeeps(s, es[0]);
      StepFits(s, es[0], r);
      RunFits(Step(s, es[0]), es[1..], r);
    }
  }

  lemma {:induction false} RunKeepsFlags(s: State, es: seq<Event>)
    requires Inv(s) && Legal(s, es)
    ensures After(s, es).flags == s.flags
    decreases |es|
  {
    if es != [] {
      StepKeeps(s, es[0]);
      StepKeepsFlags(s, es[0]);
      RunKeepsFlags(Step(s, es[0]), es[1..]);
    }
  }

  /** In every run the status a request is completed with tells how its last
      transfer ended. After an address NACK or a generic error that transfer was
      aborted with no byte counted, and the count that is reported is that of the
      transfers before it. Without a flag for an address NACK no request is ever
      reported as to no device, and without one for a generic error none as
      unsuccessful; and a parameter is reported as invalid exactly when a transfer
      is longer than 4096 bytes. */
  lemma ReportedStatus(mask: Bits, flags: Flags, es: seq<Event>, r: RequestId)
    requires Legal(Initial(mask, flags), es)
    requires r in After(Initial(mask, flags), es).requests
    ensures
      var q := After(Initial(mask, flags), es).requests[r];
      q.report.Some? ==>
        var status, n := q.report.value.status, |q.trace| - 1;
        && (TakenOn(q) ==> StatusFits(status, q.trace, flags))
        && (!TakenOn(q) ==> status == InvalidParameter || status == Cancelled)
        && (status == NoSuchDevice ==> flags.addressNack != {})
        && (status == Unsuccessful ==> flags.genericError != {})
        && (status == NoSuchDevice || status == Unsuccessful ==>
              n >= 0 && q.report.value.information == SumBytes(q.trace[..n]))
        && (status == InvalidParameter <==> exists i | 0 <= i < |q.descriptors| :: q.descriptors[i].length > 4096)
  {
    RunFits(Initial(mask, flags), es, r);
    RunKeepsFlags(Initial(mask, flags), es);
    if After(Initial(mask, flags), es).requests[r].report.Some? {
      ReportSays(After(Initial(mask, flags), es), r);
    }
  }

  lemma ReportSays(s: State, r: RequestId)
    requires Inv(s) && StatusOk(s, r) && r in s.requests && s.requests[r].report.Some?
    ensures
      var q := s.requests[r];
      var status, n := q.report.value.status, |q.trace| - 1;
      && (TakenOn(q) ==> StatusFits(status, q.trace, s.flags))
      && (!TakenOn(q) ==> status == InvalidParameter || status == Cancelled)
      && (status == NoSuchDevice || status == Unsuccessful ==>
            n >= 0 && q.report.value.information == SumBytes(q.trace[..n]))
      && (status == InvalidParameter <==> TooLong(q.descriptors))
  {
    assert RequestOk(s, r);
    var q := s.requests[r];
    if TakenOn(q) {
      var n := |q.trace| - 1;
      TraceStep(q.trace[..n], q.trace[n]);
      assert q.trace[..n] + [q.trace[n]] == q.trace;
    }
  }
}
