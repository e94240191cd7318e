/** What holds over every run of the SkeletonI2C driver. */
module SpbSafety {
  import opened CaseFold
  import opened SpbCore
  import opened SpbInvariant
  import opened SpbRuns

  // ---------------------------------------------------------------------
  // Every step keeps the invariant

  /** A change that no request's account depends on. */
  lemma UnchangedRequests(s: State, s': State)
    requires Inv(s)
    requires s'.requests == s.requests
    requires forall t | t in s.targets :: t in s'.targets && s'.targets[t] == s.targets[t]
    requires forall t | t in s'.targets && t !in s.targets :: s'.targets[t] == None
    requires s'.armed || s'.queued > 0 || !(s.armed || s.queued > 0)
    requires TargetsOk(s') && OwnerOk(s')
    ensures Inv(s')
  {
    forall r | r in s'.requests
      ensures RequestOk(s', r)
    {
      assert RequestOk(s, r);
      var q := s.requests[r];
      if s.targets[q.target] == Some(r) {
        LiveAnywhere(CoreIn(s, r), CoreIn(s', r), q.descriptors);
      }
    }
  }

  lemma LiveAnywhere(c: Core, c': Core, descriptors: seq<Descriptor>)
    requires Live(c, descriptors)
    requires c' == c.(armed := c'.armed, mask := c'.mask, interruptStatus := c'.interruptStatus)
    ensures Live(c', descriptors)
  {
  }

  lemma NothingCurrentWhenQuiet(s: State)
    requires Inv(s) && Quiet(s)
    ensures CurrentOf(s) == None && s.currentTarget == s.lockOwner
    ensures forall t | t in s.targets :: s.targets[t] == None
  {
    if CurrentOf(s).Some? {
      CurrentIsWorking(s, CurrentOf(s).value);
    }
    forall t | t in s.targets
      ensures s.targets[t] == None
    {
      if s.targets[t].Some? {
        assert s.currentTarget == Some(t);
      }
    }
  }

  lemma RefuseKeeps(s: State, r: RequestId, t: TargetId, kind: RequestKind, position: Position,
                    descriptors: seq<Descriptor>, early: bool, flag: Bits)
    requires Inv(s) && Enabled(s, Dispatch(r, t, kind, position, descriptors, early, flag))
    requires TooLong(descriptors) || early
    ensures Inv(DispatchStep(s, r, t, kind, position, descriptors, early, flag))
  {
    NothingCurrentWhenQuiet(s);
    var s' := DispatchStep(s, r, t, kind, position, descriptors, early, flag);
    forall x | x in s'.requests
      ensures RequestOk(s', x)
    {
      if x != r {
        assert RequestOk(s, x);
      }
    }
  }

  lemma DispatchKeeps(s: State, r: RequestId, t: TargetId, kind: RequestKind, position: Position,
                      descriptors: seq<Descriptor>, early: bool, flag: Bits)
    requires Inv(s) && Enabled(s, Dispatch(r, t, kind, position, descriptors, early, flag))
    ensures Inv(DispatchStep(s, r, t, kind, position, descriptors, early, flag))
  {
    NothingCurrentWhenQuiet(s);
    if TooLong(descriptors) || early {
      RefuseKeeps(s, r, t, kind, position, descriptors, early, flag);
    } else {
      var taken := Taken(s, r, t, FirstContext(kind, position, descriptors, flag), descriptors);
      TakenOk(s, r, t, kind, position, descriptors, flag);
      StartKeeps(CoreIn(taken, r), descriptors);
      PutKeeps(taken, r, DoTransfer(CoreIn(taken, r), descriptors));
    }
  }

  lemma TakenOk(s: State, r: RequestId, t: TargetId, kind: RequestKind, position: Position,
                descriptors: seq<Descriptor>, flag: Bits)
    requires Inv(s) && Enabled(s, Dispatch(r, t, kind, position, descriptors, false, flag))
    ensures
      var taken := Taken(s, r, t, FirstContext(kind, position, descriptors, flag), descriptors);
      && InvBut(taken, r) && Live(CoreIn(taken, r), descriptors)
      && CoreIn(taken, r).ctx.transferIndex == 0 && CoreIn(taken, r).ctx.totalInformation == 0
      && CoreIn(taken, r).trace == []
  {
    NothingCurrentWhenQuiet(s);
    var taken := Taken(s, r, t, FirstContext(kind, position, descriptors, flag), descriptors);
    forall x | x in taken.requests && x != r
      ensures RequestOk(taken, x)
    {
      assert RequestOk(s, x);
    }
  }

  lemma TimerKeeps(s: State)
    requires Inv(s) && s.queued > 0
    ensures CurrentKnown(s) && Inv(TimerStep(s))
  {
    CurrentKnownInv(s);
    var s1 := s.(queued := s.queued - 1);
    match CurrentOf(s)
    case None =>
      forall r | r in s1.requests
        ensures RequestOk(s1, r)
      {
        assert RequestOk(s, r);
      }
    case Some(r) =>
      CurrentIsWorking(s, r);
      forall x | x in s1.requests && x != r
        ensures RequestOk(s1, x)
      {
        assert RequestOk(s, x);
        assert s.targets[s.requests[x].target] != Some(x);
      }
      ConfigureKeeps(CoreIn(s1, r), s.requests[r].descriptors);
      PutKeeps(s1, r, ConfigureForTransfer(CoreIn(s1, r), s.requests[r].descriptors));
  }

  lemma DpcKeeps(s: State, first: TransferOutcome, second: TransferOutcome)
    requires Inv(s)
    ensures CurrentKnown(s) && Inv(DpcStep(s, first, second))
  {
    CurrentKnownInv(s);
    match CurrentOf(s)
    case None =>
    case Some(r) =>
      CurrentIsWorking(s, r);
      var q := s.requests[r];
      var c := CoreIn(s, r).(interruptStatus := {});
      LiveAnywhere(CoreIn(s, r), c, q.descriptors);
      if s.interruptStatus == {} {
        PutKeeps(s, r, c);
      } else {
        InterruptKeeps(c, q.descriptors, s.flags, s.interruptStatus, first, second);
        PutKeeps(s, r, ProcessInterrupts(c, q.descriptors, s.flags, s.interruptStatus, first, second));
      }
  }

  lemma CancelRequestKeeps(s: State, r: RequestId)
    requires Inv(s) && r in s.requests && s.requests[r].cancel == Cancelable
    ensures Inv(s.(requests := s.requests[r := s.requests[r].(cancel := Requested)]))
  {
    var s' := s.(requests := s.requests[r := s.requests[r].(cancel := Requested)]);
    assert RequestOk(s, r);
    assert s.targets[s.requests[r].target] == Some(r);
    forall x | x in s'.requests
      ensures RequestOk(s', x)
    {
      assert RequestOk(s, x);
    }
  }

  /** The cancel callback finds its request current. */
  lemma CancelFindsRequest(s: State, r: RequestId)
    requires Inv(s) && Enabled(s, CancelCallback(r))
    ensures
      && s.requests[r].target in s.targets
      && s.currentTarget == Some(s.requests[r].target) && s.targets[s.requests[r].target] == Some(r)
      && CurrentOf(s) == Some(r)
  {
    assert RequestOk(s, r);
  }

  lemma CancelCallbackKeeps(s: State, r: RequestId)
    requires Inv(s) && Enabled(s, CancelCallback(r))
    ensures Known(s, r) && Inv(CancelStep(s, r))
  {
    CancelFindsRequest(s, r);
    CurrentIsWorking(s, r);
    CancelKeeps(CoreIn(s, r), s.requests[r].descriptors);
    PutKeeps(s, r, CancelCurrent(CoreIn(s, r).(cancel := Delivered), s.requests[r].descriptors));
  }

  lemma CompleteStepKeeps(s: State, r: RequestId)
    requires Inv(s) && Enabled(s, Complete(r))
    ensures Inv(CompleteStep(s, r))
  {
    var s' := CompleteStep(s, r);
    assert RequestOk(s, r);
    forall x | x in s'.requests
      ensures RequestOk(s', x)
    {
      assert RequestOk(s, x);
    }
  }

  /** Every step of every callback keeps the invariant. */
  lemma StepKeeps(s: State, e: Event)
    requires Inv(s) && Enabled(s, e)
    ensures Inv(Step(s, e))
  {
    match e
    case Connect(t) => UnchangedRequests(s, Step(s, e));
    case Lock(t) =>
      NothingCurrentWhenQuiet(s);
      UnchangedRequests(s, Step(s, e));
    case Unlock(t) =>
      NothingCurrentWhenQuiet(s);
      UnchangedRequests(s, Step(s, e));
    case Dispatch(r, t, kind, position, descriptors, early, flag) =>
      DispatchKeeps(s, r, t, kind, position, descriptors, early, flag);
    case TimerExpires => UnchangedRequests(s, Step(s, e));
    case TimerCallback => TimerKeeps(s);
    case Interrupt(stat) => UnchangedRequests(s, Step(s, e));
    case Dpc(first, second) => DpcKeeps(s, first, second);
    case CancelRequest(r) =>
      if s.requests[r].cancel == Cancelable {
        CancelRequestKeeps(s, r);
      }
    case CancelCallback(r) => CancelCallbackKeeps(s, r);
    case Complete(r) => CompleteStepKeeps(s, r);
    case PowerCycle =>
      NothingCurrentWhenQuiet(s);
      UnchangedRequests(s, Step(s, e));
  }

  // ---------------------------------------------------------------------
  // Runs

  /** The device as it is added: no target is connected, nothing is dispatched. */
  function Initial(mask: Bits, flags: Flags): (s: State)
    ensures Inv(s)
  {
    State(None, map[], map[], None, false, 0, mask, {}, flags)
  }

  /** Each event of the run can happen when its turn comes. */
  ghost predicate Legal(s: State, es: seq<Event>)
    requires Inv(s)
    decreases |es|
  {
    es == [] || (Enabled(s, es[0]) && (StepKeeps(s, es[0]); Legal(Step(s, es[0]), es[1..])))
  }

  ghost function After(s: State, es: seq<Event>): (s': State)
    requires Inv(s) && Legal(s, es)
    ensures Inv(s')
    decreases |es|
  {
    if es == [] then s else StepKeeps(s, es[0]); After(Step(s, es[0]), es[1..])
  }

  // ---------------------------------------------------------------------
  // Theorems

  /** No request is completed twice, and none is lost: until it is completed,
      either its completion is due, or it is current and something that will
      bring it on is due. */
  lemma CompletedOnceNeverLost(mask: Bits, flags: Flags, es: seq<Event>, r: RequestId)
    requires Legal(Initial(mask, flags), es)
    ensures
      var s := After(Initial(mask, flags), es);
      r in s.requests ==>
        var q := s.requests[r];
        && q.completions + q.pending <= 1
        && (q.completions == 0 ==>
              q.pending == 1 || (CurrentOf(s) == Some(r) && (s.armed || s.queued > 0 || q.cancel == Requested)))
  {
    var s := After(Initial(mask, flags), es);
    if r in s.requests {
      assert RequestOk(s, r);
    }
  }

  /** The two early exits of the cancel callback are never taken: its request is
      current whenever it runs, and the callback has it completed. */
  lemma CancelExitsUnreachable(mask: Bits, flags: Flags, es: seq<Event>, r: RequestId)
    requires Legal(Initial(mask, flags), es + [CancelCallback(r)])
    ensures Legal(Initial(mask, flags), es)
    ensures
      var s := After(Initial(mask, flags), es);
      && r in s.requests && s.requests[r].target in s.targets
      && s.currentTarget == Some(s.requests[r].target) && s.targets[s.requests[r].target] == Some(r)
      && Enabled(s, CancelCallback(r))
      && var s' := Step(s, CancelCallback(r));
         s'.requests[r].pending == 1 && s'.requests[r].ctx.status == Cancelled && CurrentOf(s') != Some(r)
  {
    LegalPrefix(Initial(mask, flags), es, CancelCallback(r));
    var s := After(Initial(mask, flags), es);
    CancelFindsRequest(s, r);
    CurrentIsWorking(s, r);
    CancelKeeps(CoreIn(s, r), s.requests[r].descriptors);
  }

  lemma {:induction false} LegalPrefix(s: State, es: seq<Event>, e: Event)
    requires Inv(s) && Legal(s, es + [e])
    ensures Legal(s, es) && Enabled(After(s, es), e)
    decreases |es|
  {
    if es != [] {
      assert (es + [e])[1..] == es[1..] + [e];
      StepKeeps(s, es[0]);
      LegalPrefix(Step(s, es[0]), es[1..], e);
    }
  }

  /** At most one request is outstanding, and a target has a current request only
      while it is the device's current target. */
  lemma OneOutstanding(mask: Bits, flags: Flags, es: seq<Event>)
    requires Legal(Initial(mask, flags), es)
    ensures
      var s := After(Initial(mask, flags), es);
      && (forall q, r | q in s.requests && r in s.requests
                        && s.requests[q].completions == 0 && s.requests[r].completions == 0 :: q == r)
      && (forall t | t in s.targets && s.targets[t].Some? :: s.currentTarget == Some(t))
      && (forall r | r in s.requests && s.requests[r].completions > 0 :: CurrentOf(s) != Some(r))
  {
    var s := After(Initial(mask, flags), es);
    forall r | r in s.requests && s.requests[r].completions > 0
      ensures CurrentOf(s) != Some(r)
    {
      assert RequestOk(s, r);
    }
  }

  /** The ownership assertions of lock, unlock, read, write and sequence hold
      whenever the framework calls them. */
  lemma OwnershipAssertions(mask: Bits, flags: Flags, es: seq<Event>, e: Event)
    requires Legal(Initial(mask, flags), es + [e])
    ensures Legal(Initial(mask, flags), es)
    ensures
      var s := After(Initial(mask, flags), es);
      && (e.Lock? ==> s.currentTarget == None)
      && (e.Unlock? ==> s.currentTarget == Some(e.t))
      && (e.Dispatch? ==>
            && e.t in s.targets && s.targets[e.t] == None
            && s.currentTarget == if e.kind == Sequence || e.position == Single then None else Some(e.t))
  {
    LegalPrefix(Initial(mask, flags), es, e);
    var s := After(Initial(mask, flags), es);
    if e.Lock? || e.Unlock? || e.Dispatch? {
      NothingCurrentWhenQuiet(s);
    }
  }

  /** Whether the driver took a request on. */
  predicate TakenOn(q: Request) {
    q.cancel != NotMarked && q.cancel != CancelledEarly
  }

  /** The byte count a request is completed with is the sum over its finished
      transfers, each counted with no more than its length. */
  lemma ReportedBytes(mask: Bits, flags: Flags, es: seq<Event>, r: RequestId)
    requires Legal(Initial(mask, flags), es)
    requires r in After(Initial(mask, flags), es).requests
    ensures
      var q := After(Initial(mask, flags), es).requests[r];
      q.report.Some? ==>
        && q.report.value.information == SumBytes(q.trace) <= SumLengths(q.trace)
        && (q.report.value.status != Cancelled ==> SumBytes(q.trace) <= TotalLength(q.descriptors))
  {
    var s := After(Initial(mask, flags), es);
    assert RequestOk(s, r);
    var q := s.requests[r];
    if q.report.Some? && TakenOn(q) {
      SumBounded(q.trace, q.ctx);
      if q.ctx.status != Cancelled {
        var m := |Transferred(q.trace)|;
        LengthsOfPrefix(q.trace, q.descriptors, m);
        PrefixLength(q.descriptors, m);
      }
    }
  }

  /** A request that was taken on and not cancelled has finished its transfers
      from the first on, in order and each once, and has finished all of them
      unless the last one was aborted. The controller was configured for exactly
      those that no interrupt finished, each with the settings of its place: the
      start condition at the first transfer only, the stop condition at the last
      only, and the bus held in between; and each with the length and the direction
      that its descriptor asks for. */
  lemma TransfersInOrder(mask: Bits, flags: Flags, es: seq<Event>, r: RequestId)
    requires Legal(Initial(mask, flags), es)
    requires r in After(Initial(mask, flags), es).requests
    ensures
      var q := After(Initial(mask, flags), es).requests[r];
      TakenOn(q) && q.report.Some? && q.report.value.status != Cancelled ==>
        && RanInOrder(q.trace, q.descriptors)
        && ConfiguredOnes(q.trace) == StartedOnes(q.trace)
        && (forall e | e in q.trace && e.Configured? :: PlacedRight(e, q))
        && ((forall e | e in q.trace && e.Finished? :: e.cause == Started && !e.aborted) ==>
              ConfiguredOnes(q.trace) == Upto(|q.descriptors|))
  {
    var s := After(Initial(mask, flags), es);
    assert RequestOk(s, r);
    var q := s.requests[r];
    if TakenOn(q) && q.report.Some? && q.report.value.status != Cancelled {
      forall e | e in q.trace && e.Configured?
        ensures PlacedRight(e, q)
      {
        assert EntryOk(e, q.ctx);
        ConfiguredListed(q.trace, e);
        StartedFinished(q.trace, e.index);
      }
      if forall e | e in q.trace && e.Finished? :: e.cause == Started && !e.aborted {
        AllStarted(q.trace);
      }
    }
  }

  /** A transfer of the request, configured as its place in the request asks. */
  ghost predicate PlacedRight(e: Entry, q: Request)
    requires e.Configured?
  {
    && e.index < |q.descriptors|
    && e.settings == TransferSettings(PositionAt(q.ctx, e.index))
    && e.length == q.descriptors[e.index].length && e.toDevice == q.descriptors[e.index].toDevice
    && (q.ctx.kind == Sequence ==>
          && (e.settings.isStart <==> e.index == 0)
          && (e.settings.isEnd <==> e.index == |q.descriptors| - 1)
          && e.settings.busCondition == (if e.index == 0 then Free else Busy))
  }

  lemma {:induction false} ConfiguredListed(trace: seq<Entry>, e: Entry)
    requires e in trace && e.Configured?
    ensures e.index in ConfiguredOnes(trace)
  {
    if trace[|trace| - 1] != e {
      ConfiguredListed(trace[..|trace| - 1], e);
    }
  }

  lemma {:induction false} StartedFinished(trace: seq<Entry>, i: nat)
    requires i in StartedOnes(trace)
    ensures i in Transferred(trace)
  {
    var rest := trace[..|trace| - 1];
    if i in StartedOnes(rest) {
      StartedFinished(rest, i);
    }
  }

  lemma {:induction false} AllStarted(trace: seq<Entry>)
    requires forall e | e in trace && e.Finished? :: e.cause == Started
    ensures StartedOnes(trace) == Transferred(trace)
  {
    if trace != [] {
      assert trace[|trace| - 1] in trace;
      AllStarted(trace[..|trace| - 1]);
    }
  }
}
