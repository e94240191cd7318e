/** What one step of a run does to one request: the current one changes as its
    critical section says, and all others stay as they are. */
module SpbSteps {
  import opened CaseFold
  import opened SpbCore
  import opened SpbInvariant
  import opened SpbRuns
  import opened SpbSafety

  /** The current request behind a step. */
  ghost function CoreStep(s: State, e: Event, r: RequestId): Core
    requires Inv(s) && CurrentOf(s) == Some(r) && r in s.requests && Known(s, r)
  {
    var c, descriptors := CoreIn(s, r), s.requests[r].descriptors;
    match e
    case TimerCallback => ConfigureForTransfer(c, descriptors)
    case Dpc(first, second) =>
      if s.interruptStatus == {} then c
      else ProcessInterrupts(c.(interruptStatus := {}), descriptors, s.flags, s.interruptStatus, first, second)
    case CancelRequest(x) => if x == r && c.cancel == Cancelable then c.(cancel := Requested) else c
    case CancelCallback(_) => CancelCurrent(c.(cancel := Delivered), descriptors)
    case _ => c
  }

  /** The request has the context, the cancel state and the trace of the core. */
  ghost predicate HasCore(s: State, r: RequestId, c: Core) {
    && r in s.requests
    && s.requests[r].ctx == c.ctx && s.requests[r].cancel == c.cancel && s.requests[r].trace == c.trace
    && (CurrentOf(s) == Some(r) <==> c.current)
  }

  ghost predicate SameIdentity(s: State, s': State, r: RequestId) {
    && r in s.requests && r in s'.requests
    && s'.requests[r].target == s.requests[r].target && s'.requests[r].descriptors == s.requests[r].descriptors
  }

  lemma PutHasCore(s: State, r: RequestId, c: Core)
    requires r in s.requests && s.requests[r].target in s.targets && (c.current ==> c.owned)
    ensures HasCore(Put(s, r, c), r, c) && SameIdentity(s, Put(s, r, c), r)
  {
  }

  lemma DpcMoves(s: State, first: TransferOutcome, second: TransferOutcome, r: RequestId)
    requires Inv(s) && CurrentOf(s) == Some(r)
    ensures r in s.requests && Known(s, r)
    ensures HasCore(Step(s, Dpc(first, second)), r, CoreStep(s, Dpc(first, second), r))
    ensures SameIdentity(s, Step(s, Dpc(first, second)), r)
  {
    CurrentIsWorking(s, r);
    var c, descriptors := CoreIn(s, r).(interruptStatus := {}), s.requests[r].descriptors;
    LiveAnywhere(CoreIn(s, r), c, descriptors);
    if s.interruptStatus != {} {
      InterruptKeeps(c, descriptors, s.flags, s.interruptStatus, first, second);
      PutHasCore(s, r, ProcessInterrupts(c, descriptors, s.flags, s.interruptStatus, first, second));
    }
  }

  /** A current request goes through the critical sections of its own callbacks,
      and through nothing else. */
  lemma CurrentMoves(s: State, e: Event, r: RequestId)
    requires Inv(s) && Enabled(s, e) && CurrentOf(s) == Some(r)
    ensures r in s.requests && Known(s, r) && Live(CoreIn(s, r), s.requests[r].descriptors)
    ensures HasCore(Step(s, e), r, CoreStep(s, e, r)) && SameIdentity(s, Step(s, e), r)
    ensures e.CancelCallback? ==> e.r == r && s.requests[r].cancel == Requested
  {
    CurrentIsWorking(s, r);
    var q := s.requests[r];
    match e
    case TimerCallback =>
      var s1 := s.(queued := s.queued - 1);
      ConfigureKeeps(CoreIn(s, r), q.descriptors);
      PutHasCore(s1, r, ConfigureForTransfer(CoreIn(s1, r), q.descriptors));
    case Dpc(first, second) => DpcMoves(s, first, second, r);
    case CancelCallback(x) =>
      CancelFindsRequest(s, x);
      CancelKeeps(CoreIn(s, r), q.descriptors);
      PutHasCore(s, r, CancelCurrent(CoreIn(s, r).(cancel := Delivered), q.descriptors));
    case Complete(x) =>
      assert x != r;
    case _ =>
  }

  /** It stays the same request, and live until it is done. */
  lemma CoreKept(s: State, e: Event, r: RequestId)
    requires Inv(s) && Enabled(s, e) && CurrentOf(s) == Some(r)
    ensures r in s.requests && Known(s, r)
    ensures
      var c, c', descriptors := CoreIn(s, r), CoreStep(s, e, r), s.requests[r].descriptors;
      && SameRequest(c.ctx, c'.ctx)
      && if c'.current then Live(c', descriptors) else Done(c', descriptors)
  {
    CurrentIsWorking(s, r);
    var c, descriptors := CoreIn(s, r), s.requests[r].descriptors;
    match e
    case TimerCallback => ConfigureKeeps(c, descriptors);
    case Dpc(first, second) =>
      var taken := c.(interruptStatus := {});
      LiveAnywhere(c, taken, descriptors);
      if s.interruptStatus != {} {
        InterruptKeeps(taken, descriptors, s.flags, s.interruptStatus, first, second);
      }
    case CancelCallback(_) => CancelKeeps(c, descriptors);
    case _ =>
  }

  /** The fields of a request that only its own critical sections change. */
  ghost predicate SameRecord(s: State, s': State, r: RequestId) {
    && SameIdentity(s, s', r)
    && s'.requests[r].ctx == s.requests[r].ctx && s'.requests[r].cancel == s.requests[r].cancel
    && s'.requests[r].trace == s.requests[r].trace
    && (s.requests[r].report.Some? ==> s'.requests[r].report == s.requests[r].report)
  }

  lemma PutLeavesOthers(s: State, x: RequestId, c: Core, r: RequestId)
    requires r in s.requests && x in s.requests && s.requests[x].target in s.targets && x != r
    requires CurrentOf(s) == Some(x) && s.currentTarget == Some(s.requests[x].target)
    ensures SameRecord(s, Put(s, x, c), r) && CurrentOf(Put(s, x, c)) != Some(r)
  {
  }

  lemma DispatchLeavesOthers(s: State, e: Event, r: RequestId)
    requires Inv(s) && Enabled(s, e) && e.Dispatch? && r in s.requests
    ensures SameRecord(s, Step(s, e), r) && CurrentOf(Step(s, e)) != Some(r)
  {
    NothingCurrentWhenQuiet(s);
    if !TooLong(e.descriptors) && !e.cancelledEarly {
      var taken := Taken(s, e.r, e.t, FirstContext(e.kind, e.position, e.descriptors, e.dataReadyFlag), e.descriptors);
      PutLeavesOthers(taken, e.r, DoTransfer(CoreIn(taken, e.r), e.descriptors), r);
    }
  }

  lemma TimerLeavesOthers(s: State, x: RequestId, r: RequestId)
    requires Inv(s) && Enabled(s, TimerCallback) && CurrentOf(s) == Some(x) && r in s.requests && r != x
    ensures SameRecord(s, Step(s, TimerCallback), r) && CurrentOf(Step(s, TimerCallback)) != Some(r)
  {
    CurrentIsWorking(s, x);
    var s1 := s.(queued := s.queued - 1);
    PutLeavesOthers(s1, x, ConfigureForTransfer(CoreIn(s1, x), s.requests[x].descriptors), r);
  }

  lemma DpcLeavesOthers(s: State, first: TransferOutcome, second: TransferOutcome, x: RequestId, r: RequestId)
    requires Inv(s) && CurrentOf(s) == Some(x) && r in s.requests && r != x
    ensures SameRecord(s, Step(s, Dpc(first, second)), r) && CurrentOf(Step(s, Dpc(first, second))) != Some(r)
  {
    CurrentIsWorking(s, x);
    var c := CoreIn(s, x).(interruptStatus := {});
    if s.interruptStatus == {} {
      PutLeavesOthers(s, x, c, r);
    } else {
      PutLeavesOthers(s, x, ProcessInterrupts(c, s.requests[x].descriptors, s.flags, s.interruptStatus, first, second),
                      r);
    }
  }

  lemma PlainLeavesOthers(s: State, e: Event, r: RequestId)
    requires Inv(s) && Enabled(s, e) && r in s.requests && CurrentOf(s) != Some(r)
    requires !e.Dispatch? && !e.TimerCallback? && !e.Dpc? && !e.CancelCallback?
    ensures SameRecord(s, Step(s, e), r) && CurrentOf(Step(s, e)) != Some(r)
  {
    if e.CancelRequest? || e.Complete? {
      assert RequestOk(s, r);
    } else if e.Lock? || e.Unlock? || e.PowerCycle? {
      NothingCurrentWhenQuiet(s);
    }
  }

  /** A request that is not current keeps its context, its cancel state and its
      trace for good. */
  lemma OtherStays(s: State, e: Event, r: RequestId)
    requires Inv(s) && Enabled(s, e) && r in s.requests && CurrentOf(s) != Some(r)
    ensures SameRecord(s, Step(s, e), r) && CurrentOf(Step(s, e)) != Some(r)
  {
    match e
    case Dispatch(_, _, _, _, _, _, _) => DispatchLeavesOthers(s, e, r);
    case TimerCallback =>
      if CurrentOf(s).Some? {
        TimerLeavesOthers(s, CurrentOf(s).value, r);
      }
    case Dpc(first, second) =>
      if CurrentOf(s).Some? {
        DpcLeavesOthers(s, first, second, CurrentOf(s).value, r);
      }
    case CancelCallback(x) =>
      CancelFindsRequest(s, x);
      PutLeavesOthers(s, x, CancelCurrent(CoreIn(s, x).(cancel := Delivered), s.requests[x].descriptors), r);
    case _ => PlainLeavesOthers(s, e, r);
  }

  lemma StepKeepsFlags(s: State, e: Event)
    requires Inv(s) && Enabled(s, e)
    ensures Step(s, e).flags == s.flags
  {
  }

  lemma NothingNew(s: State, e: Event, r: RequestId)
    requires Inv(s) && Enabled(s, e) && r !in s.requests && !(e.Dispatch? && e.r == r)
    ensures r !in Step(s, e).requests
  {
    if CurrentOf(s).Some? {
      CurrentIsWorking(s, CurrentOf(s).value);
    }
  }
}
