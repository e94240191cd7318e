/** Delays over whole runs: a transfer with a delay is never started but by a timer
    callback, and a transfer without one never waits. */
module SpbTimers {
  import opened CaseFold
  import opened SpbCore
  import opened SpbInvariant
  import opened SpbRuns
  import opened SpbSafety
  import opened SpbSteps

  // ---------------------------------------------------------------------
  // Delayed transfers in a trace

  predicate IsDelayed(descriptors: seq<Descriptor>, index: nat) {
    index < |descriptors| && descriptors[index].delayInUs > 0
  }

  /** How many transfers with a delay the controller was configured for. */
  function DelayedOnes(trace: seq<Entry>, descriptors: seq<Descriptor>): nat {
    if trace == [] then 0
    else
      var e := trace[|trace| - 1];
      DelayedOnes(trace[..|trace| - 1], descriptors) + if e.Configured? && IsDelayed(descriptors, e.index) then 1 else 0
  }

  lemma DelayedNext(trace: seq<Entry>, e: Entry, descriptors: seq<Descriptor>)
    ensures DelayedOnes(trace + [e], descriptors) ==
            DelayedOnes(trace, descriptors) + if e.Configured? && IsDelayed(descriptors, e.index) then 1 else 0
  {
    assert (trace + [e])[..|trace|] == trace;
  }

  lemma {:induction false} BurstUndelayed(trace: seq<Entry>, ctx: Context, descriptors: seq<Descriptor>, i: nat, j: nat)
    requires i <= j <= |descriptors| && forall k | i <= k < j :: descriptors[k].delayInUs == 0
    ensures DelayedOnes(trace + Burst(ctx, descriptors, i, j), descriptors) == DelayedOnes(trace, descriptors)
    decreases j - i
  {
    if i == j {
      assert trace + [] == trace;
    } else {
      var first, second := ConfiguredEntry(ctx, descriptors, i), Finished(i, 0, descriptors[i].length, false, Started);
      DelayedNext(trace, first, descriptors);
      DelayedNext(trace + [first], second, descriptors);
      assert trace + Burst(ctx, descriptors, i, j) == trace + [first] + [second] + Burst(ctx, descriptors, i + 1, j);
      BurstUndelayed(trace + [first] + [second], ctx, descriptors, i + 1, j);
    }
  }

  // ---------------------------------------------------------------------
  // What a critical section does

  /** A request that goes on and has not been cancelled waits for a transfer with
      a delay. */
  predicate Waits(c: Core, descriptors: seq<Descriptor>) {
    c.current && c.cancel == Cancelable ==> IsDelayed(descriptors, c.ctx.transferIndex)
  }

  /** Nothing with a delay was started, and what goes on waits. */
  predicate Undelayed(c: Core, c': Core, descriptors: seq<Descriptor>) {
    DelayedOnes(c'.trace, descriptors) == DelayedOnes(c.trace, descriptors) && Waits(c', descriptors)
  }

  lemma ProceedUndelayed(c: Core, descriptors: seq<Descriptor>)
    requires c.ctx.transferIndex < |descriptors| == c.ctx.transferCount
    ensures Undelayed(c, Proceed(c, descriptors), descriptors)
  {
    var i := c.ctx.transferIndex;
    BurstUndelayed(c.trace, c.ctx, descriptors, i, NextDelayed(descriptors, i));
  }

  lemma AdvanceUndelayed(c: Core, descriptors: seq<Descriptor>)
    requires |descriptors| == c.ctx.transferCount
    ensures Undelayed(c, Advance(c, descriptors), descriptors)
  {
    var c1 := c.(ctx := c.ctx.(transferIndex := c.ctx.transferIndex + 1));
    if c1.ctx.transferIndex < c1.ctx.transferCount {
      ProceedUndelayed(c1, descriptors);
    } else {
      SettleUndelayed(c1, descriptors);
    }
  }

  lemma SettleUndelayed(c: Core, descriptors: seq<Descriptor>)
    ensures Undelayed(c, Settle(c), descriptors)
  {
  }

  lemma EndUndelayed(c: Core, descriptors: seq<Descriptor>, abort: bool, cause: Cause)
    requires |descriptors| == c.ctx.transferCount
    ensures Undelayed(c, CompleteTransfer(c, descriptors, abort, cause), descriptors)
  {
    var counted := Counted(c, abort, cause);
    DelayedNext(c.trace, counted.trace[|c.trace|], descriptors);
    if !abort {
      AdvanceUndelayed(counted, descriptors);
    }
  }

  /** Only the transfer that is started may have a delay. */
  lemma ConfigureDelayed(c: Core, descriptors: seq<Descriptor>)
    requires |descriptors| == c.ctx.transferCount
    ensures
      var c' := ConfigureForTransfer(c, descriptors);
      var one := if IsDelayed(descriptors, c.ctx.transferIndex) then 1 else 0;
      DelayedOnes(c'.trace, descriptors) == DelayedOnes(c.trace, descriptors) + one && Waits(c', descriptors)
  {
    DelayedNext(c.trace, SetUp(c).trace[|c.trace|], descriptors);
    EndUndelayed(SetUp(c), descriptors, false, Started);
  }

  lemma DataUndelayed(c: Core, descriptors: seq<Descriptor>, flags: Flags, stat: Bits,
                      first: TransferOutcome, second: TransferOutcome)
    requires |descriptors| == c.ctx.transferCount && Waits(c, descriptors)
    ensures Undelayed(c, ProcessData(c, descriptors, flags, stat, first, second), descriptors)
  {
    var ready := TestAnyBits(stat, c.ctx.dataReadyFlag);
    var c1 := if ready then c.(ctx := Moved(c.ctx, first)) else c;
    if ready && !first.ok {
      EndUndelayed(c1.(ctx := c1.ctx.(status := TransferError)), descriptors, true, Cause.Interrupt);
    } else if TestAnyBits(stat, flags.transferComplete) {
      LastUndelayed(if ready && c1.ctx.length == c1.ctx.information then c1.(mask := c1.mask - c1.ctx.dataReadyFlag)
                    else c1, descriptors, second);
    }
  }

  lemma LastUndelayed(c: Core, descriptors: seq<Descriptor>, second: TransferOutcome)
    requires |descriptors| == c.ctx.transferCount
    ensures Undelayed(c, ProcessEnd(c, descriptors, second), descriptors)
  {
    var moved := c.(ctx := Moved(c.ctx, second));
    EndUndelayed(c, descriptors, false, Cause.Interrupt);
    EndUndelayed(moved, descriptors, false, Cause.Interrupt);
    EndUndelayed(moved.(ctx := moved.ctx.(status := TransferError)), descriptors, true, Cause.Interrupt);
  }

  lemma InterruptUndelayed(c: Core, descriptors: seq<Descriptor>, flags: Flags, stat: Bits,
                           first: TransferOutcome, second: TransferOutcome)
    requires |descriptors| == c.ctx.transferCount && Waits(c, descriptors)
    ensures Undelayed(c, ProcessInterrupts(c, descriptors, flags, stat, first, second), descriptors)
  {
    if TestAnyBits(stat, flags.addressNack) {
      EndUndelayed(c.(ctx := c.ctx.(status := NoSuchDevice, information := 0)), descriptors, true, Cause.Interrupt);
    } else if TestAnyBits(stat, flags.dataNack) {
      EndUndelayed(c.(ctx := c.ctx.(status := Success)), descriptors, true, Cause.Interrupt);
    } else if TestAnyBits(stat, flags.genericError) {
      EndUndelayed(c.(ctx := c.ctx.(status := Unsuccessful, information := 0)), descriptors, true, Cause.Interrupt);
    } else {
      DataUndelayed(c, descriptors, flags, stat, first, second);
    }
  }

  lemma SectionDelays(s: State, e: Event, r: RequestId)
    requires Inv(s) && Enabled(s, e) && CurrentOf(s) == Some(r) && r in s.requests && Known(s, r)
    requires Waits(CoreIn(s, r), s.requests[r].descriptors)
    ensures
      var c, c', descriptors := CoreIn(s, r), CoreStep(s, e, r), s.requests[r].descriptors;
      var one := if e.TimerCallback? && IsDelayed(descriptors, c.ctx.transferIndex) then 1 else 0;
      DelayedOnes(c'.trace, descriptors) == DelayedOnes(c.trace, descriptors) + one && Waits(c', descriptors)
  {
    var c, descriptors := CoreIn(s, r), s.requests[r].descriptors;
    match e
    case TimerCallback => ConfigureDelayed(c, descriptors);
    case Dpc(first, second) =>
      if s.interruptStatus != {} {
        InterruptUndelayed(c.(interruptStatus := {}), descriptors, s.flags, s.interruptStatus, first, second);
      }
    case CancelCallback(_) =>
      EndUndelayed(c.(cancel := Delivered, armed := false, interruptStatus := {}, ctx := c.ctx.(status := Cancelled)),
                   descriptors, true, Cause.Cancel);
    case _ =>
  }

  // ---------------------------------------------------------------------
  // Over runs

  function TimerCallbacks(es: seq<Event>): nat {
    if es == [] then 0 else (if es[0].TimerCallback? then 1 else 0) + TimerCallbacks(es[1..])
  }

  /** The request waits if it goes on, and has had no more than so many transfers
      with a delay. */
  ghost predicate AtMost(s: State, r: RequestId, callbacks: nat) {
    r in s.requests ==>
      var q := s.requests[r];
      && DelayedOnes(q.trace, q.descriptors) <= callbacks
      && (CurrentOf(s) == Some(r) && q.cancel == Cancelable ==> IsDelayed(q.descriptors, q.ctx.transferIndex))
  }

  lemma DispatchAtMost(s: State, e: Event)
    requires Inv(s) && Enabled(s, e) && e.Dispatch?
    ensures AtMost(Step(s, e), e.r, 0)
  {
    NothingCurrentWhenQuiet(s);
    if !TooLong(e.descriptors) && !e.cancelledEarly {
      TakenOk(s, e.r, e.t, e.kind, e.position, e.descriptors, e.dataReadyFlag);
      var taken := Taken(s, e.r, e.t, FirstContext(e.kind, e.position, e.descriptors, e.dataReadyFlag), e.descriptors);
      var c := CoreIn(taken, e.r);
      StartKeeps(c, e.descriptors);
      PutHasCore(taken, e.r, DoTransfer(c, e.descriptors));
      ConfigureDelayed(c, e.descriptors);
    }
  }

  lemma StepAtMost(s: State, e: Event, r: RequestId, callbacks: nat)
    requires Inv(s) && Enabled(s, e) && AtMost(s, r, callbacks)
    ensures AtMost(Step(s, e), r, callbacks + if e.TimerCallback? then 1 else 0)
  {
    if CurrentOf(s) == Some(r) {
      CurrentIsWorking(s, r);
      CurrentMoves(s, e, r);
      SectionDelays(s, e, r);
    } else if r in s.requests {
      OtherStays(s, e, r);
    } else if e.Dispatch? && e.r == r {
      DispatchAtMost(s, e);
    } else {
      NothingNew(s, e, r);
    }
  }

  lemma {:induction false} RunAtMost(s: State, es: seq<Event>, r: RequestId, callbacks: nat)
    requires Inv(s) && Legal(s, es) && AtMost(s, r, callbacks)
    ensures AtMost(After(s, es), r, callbacks + TimerCallbacks(es))
    decreases |es|
  {
    if es != [] {
      StepKeeps(s, es[0]);
      StepAtMost(s, es[0], r, callbacks);
      RunAtMost(Step(s, es[0]), es[1..], r, callbacks + if es[0].TimerCallback? then 1 else 0);
    }
  }

  /** In every run each transfer with a delay that the controller is configured for
      takes a timer callback of its own, and a request that is current and has not
      been cancelled always waits for a transfer with a delay: the others run at
      once. */
  lemma DelaysRespected(mask: Bits, flags: Flags, es: seq<Event>, r: RequestId)
    requires Legal(Initial(mask, flags), es) && r in After(Initial(mask, flags), es).requests
    ensures
      var s := After(Initial(mask, flags), es);
      var q := s.requests[r];
      && DelayedOnes(q.trace, q.descriptors) <= TimerCallbacks(es)
      && (CurrentOf(s) == Some(r) && q.cancel == Cancelable ==>
            q.ctx.transferIndex < |q.descriptors| && q.descriptors[q.ctx.transferIndex].delayInUs > 0)
  {
    RunAtMost(Initial(mask, flags), es, r, 0);
  }
}
