/** Progress of the SkeletonI2C driver: once what is due is delivered, every
    request is completed; and what a stale timer callback does to a delay. */
module SpbProgress {
  import opened CaseFold
  import opened SpbCore
  import opened SpbInvariant
  import opened SpbRuns
  import opened SpbSafety

  // ---------------------------------------------------------------------
  // Deliveries

  /** Events that only deliver what is due already. */
  predicate Delivery(e: Event) {
    e.TimerExpires? || e.TimerCallback? || e.CancelCallback? || e.Complete?
  }

  function Remaining(ctx: Context): nat {
    if ctx.transferIndex < ctx.transferCount then ctx.transferCount - ctx.transferIndex else 0
  }

  /** How much there is to deliver at most. */
  ghost function Rank(s: State): nat {
    s.queued + (if s.armed then 2 else 0)
    + (match CurrentOf(s)
       case None => 0
       case Some(r) => if r in s.requests then 4 * Remaining(s.requests[r].ctx) + 2 else 0)
    + (if exists r | r in s.requests :: s.requests[r].pending > 0 then 1 else 0)
  }

  /** A critical section that starts or ends a transfer moves on: to a later
      transfer, which may wait for the timer, or to the end of the request. */
  lemma MovesOn(c: Core, descriptors: seq<Descriptor>)
    requires Live(c, descriptors)
    ensures
      var r := ConfigureForTransfer(c, descriptors);
      r.current ==>
        && (r.armed == c.armed || (r.armed && Remaining(r.ctx) < Remaining(c.ctx)))
        && Remaining(r.ctx) <= Remaining(c.ctx)
  {
  }

  lemma OnlyPending(s: State, r: RequestId)
    requires Inv(s) && r in s.requests && s.requests[r].completions == 0
    ensures forall x | x in s.requests && x != r :: s.requests[x].pending == 0
    ensures CurrentOf(s) == Some(r) <==> s.requests[r].pending == 0
    ensures CurrentOf(s).Some? ==> CurrentOf(s) == Some(r)
  {
    forall x | x in s.requests && x != r
      ensures s.requests[x].pending == 0
    {
      assert RequestOk(s, x);
    }
    assert RequestOk(s, r);
    if CurrentOf(s).Some? {
      CurrentIsWorking(s, CurrentOf(s).value);
    }
  }

  lemma PutRank(s: State, r: RequestId, c: Core)
    requires InvBut(s, r) && (forall x | x in s.requests :: s.requests[x].pending == 0)
    requires c.current ==> c.owned && !c.ctx.ioComplete
    requires !c.current ==> c.ctx.ioComplete
    ensures
      Rank(Put(s, r, c)) <=
        s.queued + (if c.armed then 2 else 0) + (if c.current then 4 * Remaining(c.ctx) + 2 else 1)
  {
    var s' := Put(s, r, c);
    if c.current {
      assert forall x | x in s'.requests :: s'.requests[x].pending == 0;
    } else {
      assert CurrentOf(s') == None;
    }
  }

  lemma CurrentMeansNonePending(s: State, r: RequestId)
    requires Inv(s) && CurrentOf(s) == Some(r)
    ensures r in s.requests && forall x | x in s.requests :: s.requests[x].pending == 0
  {
    CurrentIsWorking(s, r);
    OnlyPending(s, r);
  }

  lemma TimerDecreases(s: State)
    requires Inv(s) && s.queued > 0
    ensures CurrentKnown(s) && Rank(TimerStep(s)) < Rank(s)
  {
    CurrentKnownInv(s);
    var s1 := s.(queued := s.queued - 1);
    match CurrentOf(s)
    case None =>
      assert s1.requests == s.requests;
    case Some(r) =>
      CurrentIsWorking(s, r);
      CurrentMeansNonePending(s, r);
      var c := CoreIn(s1, r);
      ConfigureKeeps(c, s.requests[r].descriptors);
      MovesOn(c, s.requests[r].descriptors);
      StillInvBut(s, s1, r);
      PutRank(s1, r, ConfigureForTransfer(c, s.requests[r].descriptors));
  }

  lemma StillInvBut(s: State, s1: State, r: RequestId)
    requires InvBut(s, r) && s1 == s.(queued := s1.queued)
    ensures InvBut(s1, r)
  {
    forall x | x in s1.requests && x != r
      ensures RequestOk(s1, x)
    {
      assert RequestOk(s, x);
      assert s.targets[s.requests[x].target] != Some(x);
    }
  }

  lemma CancelDecreases(s: State, r: RequestId)
    requires Inv(s) && Enabled(s, CancelCallback(r))
    ensures Known(s, r) && Rank(CancelStep(s, r)) < Rank(s)
  {
    CancelFindsRequest(s, r);
    CurrentIsWorking(s, r);
    CurrentMeansNonePending(s, r);
    CancelKeeps(CoreIn(s, r), s.requests[r].descriptors);
    PutRank(s, r, CancelCurrent(CoreIn(s, r).(cancel := Delivered), s.requests[r].descriptors));
  }

  lemma CompleteDecreases(s: State, r: RequestId)
    requires Inv(s) && Enabled(s, Complete(r))
    ensures Rank(CompleteStep(s, r)) < Rank(s)
  {
    assert RequestOk(s, r);
    OnlyPending(s, r);
    var s' := CompleteStep(s, r);
    assert forall x | x in s'.requests :: s'.requests[x].pending == 0;
  }

  /** Every delivery lowers the rank. */
  lemma DeliveryDecreases(s: State, e: Event)
    requires Inv(s) && Enabled(s, e) && Delivery(e)
    ensures Rank(Step(s, e)) < Rank(s)
  {
    match e
    case TimerExpires => assert Step(s, e).requests == s.requests;
    case TimerCallback => TimerDecreases(s);
    case CancelCallback(r) => CancelDecreases(s, r);
    case Complete(r) => CompleteDecreases(s, r);
  }

  /** While a request is not completed, there is something to deliver. */
  lemma DeliveryDue(s: State, r: RequestId) returns (e: Event)
    requires Inv(s) && r in s.requests && s.requests[r].completions == 0
    ensures Delivery(e) && Enabled(s, e)
  {
    assert RequestOk(s, r);
    e := if s.requests[r].pending > 0 then Complete(r)
         else if s.requests[r].cancel == Requested then CancelCallback(r)
         else if s.armed then TimerExpires
         else TimerCallback;
  }

  /** From any state of any run, deliveries alone come to an end, in whatever
      order they come, and when they have, every request has been completed. */
  lemma {:induction false} DeliveriesComplete(s: State, es: seq<Event>)
    requires Inv(s) && Legal(s, es)
    requires forall e | e in es :: Delivery(e)
    ensures |es| <= Rank(s)
    ensures (forall e | Delivery(e) :: !Enabled(After(s, es), e)) ==> Quiet(After(s, es))
    decreases |es|
  {
    if es == [] {
      if r :| r in s.requests && s.requests[r].completions == 0 {
        var e := DeliveryDue(s, r);
      }
    } else {
      StepKeeps(s, es[0]);
      DeliveryDecreases(s, es[0]);
      DeliveriesComplete(Step(s, es[0]), es[1..]);
    }
  }

  /** So a request is completed after a bounded number of deliveries. */
  lemma {:induction false} CompletionReached(s: State, r: RequestId) returns (es: seq<Event>)
    requires Inv(s) && r in s.requests
    ensures |es| <= Rank(s) && Legal(s, es) && (forall e | e in es :: Delivery(e))
    ensures r in After(s, es).requests && After(s, es).requests[r].completions == 1
    decreases Rank(s)
  {
    if s.requests[r].completions > 0 {
      es := [];
      assert RequestOk(s, r);
    } else {
      var e := DeliveryDue(s, r);
      StepKeeps(s, e);
      DeliveryDecreases(s, e);
      DeliveryKeepsRequests(s, e, r);
      var rest := CompletionReached(Step(s, e), r);
      es := [e] + rest;
      assert es[1..] == rest;
    }
  }

  lemma DeliveryKeepsRequests(s: State, e: Event, r: RequestId)
    requires Inv(s) && Enabled(s, e) && Delivery(e) && r in s.requests
    ensures r in Step(s, e).requests
  {
  }

  // ---------------------------------------------------------------------
  // Delays

  /** The timer is exactly as busy as the current request needs it. */
  ghost predicate Punctual(s: State) {
    && (if CurrentOf(s).Some? then (s.armed && s.queued == 0) || (!s.armed && s.queued == 1)
        else !s.armed && s.queued == 0)
    && s.interruptStatus == {}
    && forall r | r in s.requests :: s.requests[r].cancel != Requested
  }

  lemma ArmedOnlyForCurrent(c: Core, descriptors: seq<Descriptor>)
    requires Live(c, descriptors) && !c.armed && c.cancel == Cancelable && c.interruptStatus == {}
    ensures
      var r := ConfigureForTransfer(c, descriptors);
      && (r.armed <==> r.current) && (r.current ==> r.owned) && r.interruptStatus == {} && r.cancel != Requested
  {
    ConfigureKeeps(c, descriptors);
  }

  lemma PutPunctual(s: State, r: RequestId, c: Core)
    requires InvBut(s, r) && s.queued == 0 && forall x | x in s.requests && x != r :: s.requests[x].cancel != Requested
    requires (c.armed <==> c.current) && (c.current ==> c.owned) && c.interruptStatus == {} && c.cancel != Requested
    ensures Punctual(Put(s, r, c))
  {
    var s' := Put(s, r, c);
    if !c.current {
      assert s'.targets[s.requests[r].target] == None;
    }
  }

  lemma DispatchPunctual(s: State, e: Event)
    requires Inv(s) && Enabled(s, e) && Punctual(s) && e.Dispatch?
    ensures Punctual(Step(s, e))
  {
    NothingCurrentWhenQuiet(s);
    if !TooLong(e.descriptors) && !e.cancelledEarly {
      TakenOk(s, e.r, e.t, e.kind, e.position, e.descriptors, e.dataReadyFlag);
      var taken := Taken(s, e.r, e.t, FirstContext(e.kind, e.position, e.descriptors, e.dataReadyFlag), e.descriptors);
      StartPunctual(CoreIn(taken, e.r), e.descriptors);
      PutPunctual(taken, e.r, DoTransfer(CoreIn(taken, e.r), e.descriptors));
    }
  }

  lemma StartPunctual(c: Core, descriptors: seq<Descriptor>)
    requires Live(c, descriptors) && !c.armed && c.cancel == Cancelable && c.interruptStatus == {}
    ensures
      var r := DoTransfer(c, descriptors);
      && (r.armed <==> r.current) && (r.current ==> r.owned) && r.interruptStatus == {} && r.cancel != Requested
  {
    if c.ctx.delayInUs == 0 {
      ArmedOnlyForCurrent(c, descriptors);
    }
  }

  lemma TimerPunctual(s: State)
    requires Inv(s) && Enabled(s, TimerCallback) && Punctual(s)
    ensures CurrentOf(s).Some? && Punctual(Step(s, TimerCallback))
  {
    var r, s1 := CurrentOf(s).value, s.(queued := s.queued - 1);
    CurrentIsWorking(s, r);
    StillInvBut(s, s1, r);
    ArmedOnlyForCurrent(CoreIn(s1, r), s.requests[r].descriptors);
    PutPunctual(s1, r, ConfigureForTransfer(CoreIn(s1, r), s.requests[r].descriptors));
  }

  lemma StepPunctual(s: State, e: Event)
    requires Inv(s) && Enabled(s, e) && Punctual(s) && !e.Interrupt? && !e.CancelRequest?
    ensures Punctual(Step(s, e))
  {
    if e.TimerCallback? {
      TimerPunctual(s);
    } else if e.Dispatch? {
      DispatchPunctual(s, e);
    } else if e.Dpc? && CurrentOf(s).Some? {
      CurrentIsWorking(s, CurrentOf(s).value);
    } else if e.Lock? || e.Unlock? || e.PowerCycle? {
      NothingCurrentWhenQuiet(s);
    }
  }

  /** Without interrupts and cancels every delay is waited out: when the timer
      callback runs, the timer it belongs to has run out, no other is running,
      and its request is current. */
  lemma {:induction false} DelayWaitedOut(s: State, es: seq<Event>)
    requires Inv(s) && Punctual(s) && Legal(s, es)
    requires forall e | e in es :: !e.Interrupt? && !e.CancelRequest?
    ensures Punctual(After(s, es))
    ensures After(s, es).queued > 0 ==> !After(s, es).armed && After(s, es).queued == 1 && CurrentOf(After(s, es)).Some?
    decreases |es|
  {
    if es != [] {
      StepKeeps(s, es[0]);
      StepPunctual(s, es[0]);
      DelayWaitedOut(Step(s, es[0]), es[1..]);
    }
  }

  lemma {:induction false} LegalSnoc(s: State, es: seq<Event>, e: Event)
    requires Inv(s) && Legal(s, es) && Enabled(After(s, es), e)
    ensures Legal(s, es + [e]) && After(s, es + [e]) == Step(After(s, es), e)
    decreases |es|
  {
    if es == [] {
      assert ([e])[1..] == [];
      StepKeeps(s, e);
      assert [] + [e] == [e];
    } else {
      assert (es + [e])[1..] == es[1..] + [e];
      StepKeeps(s, es[0]);
      LegalSnoc(Step(s, es[0]), es[1..], e);
    }
  }

  lemma OneStepRun(s: State, e: Event)
    requires Inv(s) && Enabled(s, e)
    ensures Legal(s, [e]) && After(s, [e]) == Step(s, e)
  {
    StepKeeps(s, e);
    assert [e][1..] == [];
  }

  const NO_FLAGS := Flags({}, {}, {}, {})

  const SLOW := [Descriptor(4, 1000, false)]

  function SlowDispatch(r: RequestId): Event {
    Dispatch(r, 0, Read, Single, SLOW, false, {})
  }

  /** One target, no lock, and every request completed. */
  ghost predicate Resting(s: State, stale: nat) {
    && Inv(s) && Quiet(s) && s.targets == map[0 := None] && s.lockOwner == None
    && s.queued == stale
  }

  /** A delayed read of four bytes waits for the timer. */
  ghost predicate Waiting(s: State, r: RequestId, stale: nat) {
    && Inv(s) && s.targets == map[0 := Some(r)] && CurrentOf(s) == Some(r) && s.lockOwner == None
    && r in s.requests && s.requests[r].target == 0 && s.requests[r].descriptors == SLOW
    && s.requests[r].cancel == Cancelable && s.requests[r].trace == []
    && s.requests[r].ctx == FirstContext(Read, Single, SLOW, {})
    && (forall x | x in s.requests && x != r :: s.requests[x].completions > 0)
    && s.armed && s.queued == stale
  }

  lemma SlowDispatchWaits(s: State, r: RequestId, stale: nat)
    requires Resting(s, stale) && r !in s.requests
    ensures Enabled(s, SlowDispatch(r)) && Waiting(Step(s, SlowDispatch(r)), r, stale)
    ensures Step(s, SlowDispatch(r)).requests.Keys == s.requests.Keys + {r}
  {
    assert !TooLong(SLOW);
    StepKeeps(s, SlowDispatch(r));
    NothingCurrentWhenQuiet(s);
  }

  /** A cancel callback is due for the request, and so is a timer callback. */
  ghost predicate Cancelling(s: State, r: RequestId, stale: nat) {
    && Inv(s) && s.targets == map[0 := Some(r)] && CurrentOf(s) == Some(r) && s.lockOwner == None
    && r in s.requests && s.requests[r].target == 0 && s.requests[r].cancel == Requested
    && ReleasesTarget(s.requests[r].ctx)
    && s.queued == stale && forall x | x in s.requests && x != r :: s.requests[x].completions > 0
  }

  /** Its completion is due. */
  ghost predicate Completing(s: State, r: RequestId, stale: nat) {
    && Inv(s) && r in s.requests && s.requests[r].pending == 1 && s.requests[r].completions == 0
    && (forall x | x in s.requests && x != r :: s.requests[x].completions > 0)
    && s.targets == map[0 := None] && s.lockOwner == None && s.queued == stale
  }

  lemma WaitingExpires(s: State, r: RequestId, stale: nat)
    requires Waiting(s, r, stale)
    ensures Enabled(s, TimerExpires)
    ensures
      var s' := Step(s, TimerExpires);
      && Inv(s') && Enabled(s', CancelRequest(r))
      && Cancelling(Step(s', CancelRequest(r)), r, stale + 1)
      && Step(s', CancelRequest(r)).requests.Keys == s.requests.Keys
  {
    StepKeeps(s, TimerExpires);
    StepKeeps(Step(s, TimerExpires), CancelRequest(r));
  }

  lemma CompletingRests(s: State, r: RequestId, stale: nat)
    requires Completing(s, r, stale)
    ensures Enabled(s, Complete(r)) && Resting(Step(s, Complete(r)), stale)
    ensures Step(s, Complete(r)).requests.Keys == s.requests.Keys
  {
    StepKeeps(s, Complete(r));
  }

  /** The timer runs out, and before its callback gets the lock, the request is
      cancelled and completed: the callback has become a stale one. */
  lemma CancelLeavesStaleCallback(s: State, r: RequestId, stale: nat) returns (es: seq<Event>)
    requires Waiting(s, r, stale)
    ensures Legal(s, es) && Resting(After(s, es), stale + 1)
    ensures After(s, es).requests.Keys == s.requests.Keys
  {
    WaitingExpires(s, r, stale);
    es := [];
    LegalSnoc(s, es, TimerExpires);
    es := es + [TimerExpires];
    LegalSnoc(s, es, CancelRequest(r));
    es := es + [CancelRequest(r)];
    CancelledIsPending(After(s, es), r, stale + 1);
    LegalSnoc(s, es, CancelCallback(r));
    es := es + [CancelCallback(r)];
    CompletingRests(After(s, es), r, stale + 1);
    LegalSnoc(s, es, Complete(r));
    es := es + [Complete(r)];
  }

  lemma CancelledIsPending(s: State, r: RequestId, stale: nat)
    requires Cancelling(s, r, stale)
    ensures Enabled(s, CancelCallback(r)) && Completing(Step(s, CancelCallback(r)), r, stale)
    ensures Step(s, CancelCallback(r)).requests.Keys == s.requests.Keys
  {
    StepKeeps(s, CancelCallback(r));
    CurrentIsWorking(s, r);
    CancelKeeps(CoreIn(s, r), s.requests[r].descriptors);
  }

  /** The stale callback starts the transfer, timer or no timer. */
  lemma StaleCallbackStarts(s: State, r: RequestId, stale: nat)
    requires Waiting(s, r, stale) && stale > 0
    ensures Enabled(s, TimerCallback)
    ensures
      var s' := Step(s, TimerCallback);
      r in s'.requests && s'.requests[r].trace ==
        [Configured(0, TransferSettings(Single), 4, false), Finished(0, 0, 4, false, Started)]
  {
    CurrentIsWorking(s, r);
  }

  lemma {:induction false} LegalAppend(s: State, es: seq<Event>, more: seq<Event>)
    requires Inv(s) && Legal(s, es) && Legal(After(s, es), more)
    ensures Legal(s, es + more) && After(s, es + more) == After(After(s, es), more)
    decreases |es|
  {
    if es == [] {
      assert es + more == more;
    } else {
      assert (es + more)[1..] == es[1..] + more;
      StepKeeps(s, es[0]);
      LegalAppend(Step(s, es[0]), es[1..], more);
    }
  }

  /** With a cancel the delay can be cut short: a callback that was already due
      for a cancelled request starts the transfer of the next one while the timer
      of that one is still running. */
  lemma StaleCallbackCutsDelayShort() returns (es: seq<Event>)
    ensures Legal(Initial({}, NO_FLAGS), es)
    ensures
      var s := After(Initial({}, NO_FLAGS), es);
      && s.armed && CurrentOf(s) == Some(2) && 2 in s.requests && s.requests[2].trace == []
      && Enabled(s, TimerCallback)
      && 2 in Step(s, TimerCallback).requests
      && Step(s, TimerCallback).requests[2].trace ==
         [Configured(0, TransferSettings(Single), 4, false), Finished(0, 0, 4, false, Started)]
  {
    var s0 := Initial({}, NO_FLAGS);
    es := [];
    LegalSnoc(s0, es, Connect(0));
    es := es + [Connect(0)];
    var s1 := After(s0, es);
    assert Resting(s1, 0);
    SlowDispatchWaits(s1, 1, 0);
    LegalSnoc(s0, es, SlowDispatch(1));
    es := es + [SlowDispatch(1)];
    var s2 := After(s0, es);
    var more := CancelLeavesStaleCallback(s2, 1, 0);
    LegalAppend(s0, es, more);
    es := es + more;
    var s3 := After(s0, es);
    SlowDispatchWaits(s3, 2, 1);
    LegalSnoc(s0, es, SlowDispatch(2));
    es := es + [SlowDispatch(2)];
    StaleCallbackStarts(After(s0, es), 2, 1);
  }
}
