/** When the delay of a transfer is waited out: exactly when no timer callback is
    queued already and no flag is left over that acts on the request. */
module SpbDelays {
  import opened CaseFold
  import opened SpbCore
  import opened SpbInvariant
  import opened SpbRuns
  import opened SpbSafety
  import opened SpbSteps
  import opened SpbProgress
  import opened SpbCallbacks

  /** Flags with which the deferred interrupt callback does something for a request. */
  predicate Acts(flags: Flags, ready: Bits, stat: Bits) {
    || TestAnyBits(stat, flags.addressNack) || TestAnyBits(stat, flags.dataNack)
    || TestAnyBits(stat, flags.genericError) || TestAnyBits(stat, flags.transferComplete)
    || TestAnyBits(stat, ready)
  }

  /** Runs in which the timer does not run out and the controller does not speak up. */
  predicate Still(es: seq<Event>, flags: Flags, ready: Bits) {
    forall e | e in es :: !e.TimerExpires? && (e.Interrupt? ==> !Acts(flags, ready, e.stat))
  }

  /** No transfer was configured or finished since, except for the one that was
      waiting, by a cancel. */
  predicate Untouched(trace: seq<Entry>, now: seq<Entry>) {
    || now == trace
    || (|now| == |trace| + 1 && now[..|trace|] == trace && now[|trace|].Finished? && now[|trace|].cause == Cause.Cancel)
  }

  /** Nothing is on its way that could start or end a transfer of the request
      before the timer runs out. */
  predicate NothingLeftOver(s: State, ready: Bits) {
    s.queued == 0 && !Acts(s.flags, ready, s.interruptStatus)
  }

  ghost predicate Held(s: State, r: RequestId, flags: Flags, ready: Bits, trace: seq<Entry>) {
    && r in s.requests && s.flags == flags
    && if CurrentOf(s) == Some(r)
       then NothingLeftOver(s, ready) && s.requests[r].ctx.dataReadyFlag == ready && s.requests[r].trace == trace
       else Untouched(trace, s.requests[r].trace)
  }

  lemma NothingToProcess(c: Core, descriptors: seq<Descriptor>, flags: Flags, stat: Bits,
                         first: TransferOutcome, second: TransferOutcome)
    requires |descriptors| == c.ctx.transferCount && !Acts(flags, c.ctx.dataReadyFlag, stat)
    ensures ProcessInterrupts(c, descriptors, flags, stat, first, second) == c
  {
  }

  lemma HeldStep(s: State, e: Event, r: RequestId, flags: Flags, ready: Bits, trace: seq<Entry>)
    requires Inv(s) && Enabled(s, e) && Held(s, r, flags, ready, trace) && Still([e], flags, ready)
    ensures Held(Step(s, e), r, flags, ready, trace)
  {
    assert e in [e];
    StepKeepsFlags(s, e);
    if CurrentOf(s) == Some(r) {
      CurrentMoves(s, e, r);
      if e.Dpc? && s.interruptStatus != {} {
        NothingToProcess(CoreIn(s, r).(interruptStatus := {}), s.requests[r].descriptors, flags, s.interruptStatus,
                         e.first, e.second);
      }
    } else {
      OtherStays(s, e, r);
    }
  }

  lemma {:induction false} HeldRun(s: State, es: seq<Event>, r: RequestId, flags: Flags, ready: Bits, trace: seq<Entry>)
    requires Inv(s) && Legal(s, es) && Held(s, r, flags, ready, trace) && Still(es, flags, ready)
    ensures Held(After(s, es), r, flags, ready, trace)
    decreases |es|
  {
    if es != [] {
      StepKeeps(s, es[0]);
      HeldStep(s, es[0], r, flags, ready, trace);
      HeldRun(Step(s, es[0]), es[1..], r, flags, ready, trace);
    }
  }

  // ---------------------------------------------------------------------
  // What is left over acts at once

  lemma AdvanceAppends(c: Core, descriptors: seq<Descriptor>)
    requires |descriptors| == c.ctx.transferCount
    ensures |c.trace| <= |Advance(c, descriptors).trace| && Advance(c, descriptors).trace[..|c.trace|] == c.trace
  {
  }

  lemma StartTouches(c: Core, descriptors: seq<Descriptor>)
    requires |descriptors| == c.ctx.transferCount
    ensures !Untouched(c.trace, ConfigureForTransfer(c, descriptors).trace)
  {
    AdvanceAppends(Counted(SetUp(c), false, Started), descriptors);
  }

  lemma EndTouches(c: Core, descriptors: seq<Descriptor>, abort: bool)
    requires |descriptors| == c.ctx.transferCount
    ensures !Untouched(c.trace, CompleteTransfer(c, descriptors, abort, Cause.Interrupt).trace)
  {
    var counted := Counted(c, abort, Cause.Interrupt);
    assert counted.trace[|c.trace|].cause == Cause.Interrupt;
    AdvanceAppends(counted, descriptors);
  }

  lemma DataTouches(c: Core, descriptors: seq<Descriptor>, flags: Flags, stat: Bits)
    requires |descriptors| == c.ctx.transferCount
    requires TestAnyBits(stat, flags.transferComplete) || TestAnyBits(stat, c.ctx.dataReadyFlag)
    ensures
      var failed := TransferOutcome(0, false);
      !Untouched(c.trace, ProcessData(c, descriptors, flags, stat, failed, failed).trace)
  {
    EndTouches(c.(ctx := Moved(c.ctx, TransferOutcome(0, false)).(status := TransferError)), descriptors, true);
    EndTouches(c, descriptors, false);
  }

  /** Flags that act end a transfer if moving its data fails. */
  lemma FlagsTouch(c: Core, descriptors: seq<Descriptor>, flags: Flags, stat: Bits)
    requires |descriptors| == c.ctx.transferCount && Acts(flags, c.ctx.dataReadyFlag, stat)
    ensures
      var failed := TransferOutcome(0, false);
      !Untouched(c.trace, ProcessInterrupts(c, descriptors, flags, stat, failed, failed).trace)
  {
    if TestAnyBits(stat, flags.addressNack) {
      EndTouches(c.(ctx := c.ctx.(status := NoSuchDevice, information := 0)), descriptors, true);
    } else if TestAnyBits(stat, flags.dataNack) {
      EndTouches(c.(ctx := c.ctx.(status := Success)), descriptors, true);
    } else if TestAnyBits(stat, flags.genericError) {
      EndTouches(c.(ctx := c.ctx.(status := Unsuccessful, information := 0)), descriptors, true);
    } else {
      DataTouches(c, descriptors, flags, stat);
    }
  }

  lemma LeftOverTouches(s: State, r: RequestId) returns (es: seq<Event>)
    requires Inv(s) && CurrentOf(s) == Some(r) && r in s.requests
    requires !NothingLeftOver(s, s.requests[r].ctx.dataReadyFlag)
    ensures Legal(s, es) && Still(es, s.flags, s.requests[r].ctx.dataReadyFlag)
    ensures r in After(s, es).requests && !Untouched(s.requests[r].trace, After(s, es).requests[r].trace)
  {
    var failed := TransferOutcome(0, false);
    var e := if s.queued > 0 then TimerCallback else Dpc(failed, failed);
    es := [e];
    OneStepRun(s, e);
    CurrentMoves(s, e, r);
    if s.queued > 0 {
      StartTouches(CoreIn(s, r), s.requests[r].descriptors);
    } else {
      FlagsTouch(CoreIn(s, r).(interruptStatus := {}), s.requests[r].descriptors, s.flags, s.interruptStatus);
    }
  }

  // ---------------------------------------------------------------------
  // Theorems

  /** In every run that does not let the timer run out, the transfers of the
      request are left alone. */
  ghost predicate LeftAlone(s: State, r: RequestId)
    requires Inv(s) && r in s.requests
  {
    forall es | Legal(s, es) && Still(es, s.flags, s.requests[r].ctx.dataReadyFlag) ::
      r in After(s, es).requests && Untouched(s.requests[r].trace, After(s, es).requests[r].trace)
  }

  /** The current request waits for its timer, whatever else happens, exactly when
      nothing is left over. */
  lemma HeldExact(s: State, r: RequestId)
    requires Inv(s) && CurrentOf(s) == Some(r)
    ensures r in s.requests
    ensures LeftAlone(s, r) <==> NothingLeftOver(s, s.requests[r].ctx.dataReadyFlag)
  {
    CurrentIsWorking(s, r);
    var q := s.requests[r];
    if NothingLeftOver(s, q.ctx.dataReadyFlag) {
      forall es | Legal(s, es) && Still(es, s.flags, q.ctx.dataReadyFlag)
        ensures r in After(s, es).requests && Untouched(q.trace, After(s, es).requests[r].trace)
      {
        HeldRun(s, es, r, s.flags, q.ctx.dataReadyFlag, q.trace);
      }
    } else {
      var es := LeftOverTouches(s, r);
      assert Legal(s, es) && Still(es, s.flags, q.ctx.dataReadyFlag);
    }
  }

  /** A request whose first transfer has a delay waits for it exactly when, at its
      dispatch, no timer callback is queued and no flag is left that acts on it. */
  lemma DelayExact(s: State, e: Event)
    requires Inv(s) && Enabled(s, e) && e.Dispatch? && !e.cancelledEarly && !TooLong(e.descriptors)
    requires e.descriptors[0].delayInUs > 0
    ensures Inv(Step(s, e)) && CurrentOf(Step(s, e)) == Some(e.r) && Step(s, e).armed
    ensures e.r in Step(s, e).requests && Step(s, e).requests[e.r].trace == []
    ensures LeftAlone(Step(s, e), e.r) <==> NothingLeftOver(s, e.dataReadyFlag)
  {
    StepKeeps(s, e);
    NothingCurrentWhenQuiet(s);
    HeldExact(Step(s, e), e.r);
  }

  /** So every delay is waited out as long as no interrupt has come and no cancel
      has been requested. */
  lemma DelaysHeld(mask: Bits, flags: Flags, es: seq<Event>, e: Event)
    requires Legal(Initial(mask, flags), es) && Enabled(After(Initial(mask, flags), es), e)
    requires forall x | x in es :: !x.Interrupt? && !x.CancelRequest?
    requires e.Dispatch? && !e.cancelledEarly && !TooLong(e.descriptors) && e.descriptors[0].delayInUs > 0
    ensures Inv(Step(After(Initial(mask, flags), es), e)) && e.r in Step(After(Initial(mask, flags), es), e).requests
    ensures LeftAlone(Step(After(Initial(mask, flags), es), e), e.r)
  {
    var s := After(Initial(mask, flags), es);
    DelayWaitedOut(Initial(mask, flags), es);
    NothingCurrentWhenQuiet(s);
    DelayExact(s, e);
  }

  // ---------------------------------------------------------------------
  // Delays and cancels

  /** The timer runs for the current request alone, and once; nothing is left of
      an interrupt. */
  predicate Tidy(s: State) {
    && s.interruptStatus == {} && s.queued + (if s.armed then 1 else 0) <= 1
    && (CurrentOf(s).None? ==> !s.armed && s.queued == 0)
  }

  lemma StartTidy(c: Core, descriptors: seq<Descriptor>)
    requires Live(c, descriptors) && !c.armed && c.interruptStatus == {}
    ensures
      var r := DoTransfer(c, descriptors);
      (r.armed ==> r.current) && (r.current ==> r.owned) && r.interruptStatus == {}
    ensures
      var r := ConfigureForTransfer(c, descriptors);
      (r.armed ==> r.current) && (r.current ==> r.owned) && r.interruptStatus == {}
  {
    ConfigureKeeps(c, descriptors);
  }

  lemma PutTidy(s: State, r: RequestId, c: Core)
    requires r in s.requests && s.requests[r].target in s.targets && s.queued == 0
    requires (c.armed ==> c.current) && (c.current ==> c.owned) && c.interruptStatus == {}
    ensures Tidy(Put(s, r, c))
  {
  }

  lemma DispatchTidy(s: State, e: Event)
    requires Inv(s) && Enabled(s, e) && Tidy(s) && e.Dispatch?
    ensures Tidy(Step(s, e))
  {
    NothingCurrentWhenQuiet(s);
    if !TooLong(e.descriptors) && !e.cancelledEarly {
      TakenOk(s, e.r, e.t, e.kind, e.position, e.descriptors, e.dataReadyFlag);
      var taken := Taken(s, e.r, e.t, FirstContext(e.kind, e.position, e.descriptors, e.dataReadyFlag), e.descriptors);
      StartTidy(CoreIn(taken, e.r), e.descriptors);
      PutTidy(taken, e.r, DoTransfer(CoreIn(taken, e.r), e.descriptors));
    }
  }

  lemma TimerTidy(s: State)
    requires Inv(s) && Enabled(s, TimerCallback) && Tidy(s)
    ensures Tidy(Step(s, TimerCallback))
  {
    var r, s1 := CurrentOf(s).value, s.(queued := s.queued - 1);
    CurrentIsWorking(s, r);
    LiveAnywhere(CoreIn(s, r), CoreIn(s1, r), s.requests[r].descriptors);
    StartTidy(CoreIn(s1, r), s.requests[r].descriptors);
    PutTidy(s1, r, ConfigureForTransfer(CoreIn(s1, r), s.requests[r].descriptors));
  }

  lemma StepTidy(s: State, e: Event)
    requires Inv(s) && Enabled(s, e) && Tidy(s) && !e.Interrupt? && (e.CancelCallback? ==> s.queued == 0)
    ensures Tidy(Step(s, e))
  {
    match e
    case TimerCallback => TimerTidy(s);
    case Dispatch(_, _, _, _, _, _, _) => DispatchTidy(s, e);
    case CancelCallback(r) => CancelStops(s, r);
    case Dpc(_, _) =>
      if CurrentOf(s).Some? {
        CurrentIsWorking(s, CurrentOf(s).value);
      }
    case Lock(_) => NothingCurrentWhenQuiet(s);
    case Unlock(_) => NothingCurrentWhenQuiet(s);
    case PowerCycle => NothingCurrentWhenQuiet(s);
    case _ =>
  }

  /** Whenever a cancel callback runs, no timer callback is queued. */
  ghost predicate CancelsInTime(s: State, es: seq<Event>)
    requires Inv(s) && Legal(s, es)
    decreases |es|
  {
    es != [] ==>
      && (es[0].CancelCallback? ==> s.queued == 0)
      && (StepKeeps(s, es[0]); CancelsInTime(Step(s, es[0]), es[1..]))
  }

  lemma {:induction false} RunTidy(s: State, es: seq<Event>)
    requires Inv(s) && Legal(s, es) && Tidy(s) && CancelsInTime(s, es) && forall x | x in es :: !x.Interrupt?
    ensures Tidy(After(s, es))
    decreases |es|
  {
    if es != [] {
      StepKeeps(s, es[0]);
      StepTidy(s, es[0]);
      RunTidy(Step(s, es[0]), es[1..]);
    }
  }

  /** A cancel alone harms no later delay: without interrupts every delay is waited
      out, as long as no timer callback was queued when a cancel callback ran. */
  lemma CancelsHarmless(mask: Bits, flags: Flags, es: seq<Event>, e: Event)
    requires Legal(Initial(mask, flags), es) && Enabled(After(Initial(mask, flags), es), e)
    requires CancelsInTime(Initial(mask, flags), es) && forall x | x in es :: !x.Interrupt?
    requires e.Dispatch? && !e.cancelledEarly && !TooLong(e.descriptors) && e.descriptors[0].delayInUs > 0
    ensures Inv(Step(After(Initial(mask, flags), es), e)) && e.r in Step(After(Initial(mask, flags), es), e).requests
    ensures LeftAlone(Step(After(Initial(mask, flags), es), e), e.r)
  {
    var s := After(Initial(mask, flags), es);
    RunTidy(Initial(mask, flags), es);
    NothingCurrentWhenQuiet(s);
    DelayExact(s, e);
  }
}
