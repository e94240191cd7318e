/** The callbacks of the driver, run on its objects, are the steps of the runs. */
module SpbRefinement {
  import opened CaseFold
  import opened SpbCore
  import opened SpbRuns
  import opened SpbSafety
  import opened SpbWorld

  /** The callbacks that work on the current request. */
  datatype Callback = Timer | DpcOf(first: TransferOutcome, second: TransferOutcome) | CancelOf(r: RequestId)

  function EventOf(k: Callback): Event {
    match k
    case Timer => TimerCallback
    case DpcOf(first, second) => Dpc(first, second)
    case CancelOf(r) => CancelCallback(r)
  }

  function ResultOf(k: Callback, c: Core, descriptors: seq<Descriptor>, flags: Flags): Core
    requires |descriptors| == c.ctx.transferCount
  {
    match k
    case Timer => ConfigureForTransfer(c, descriptors)
    case DpcOf(first, second) =>
      var c1 := c.(interruptStatus := {});
      if c.interruptStatus == {} then c1
      else ProcessInterrupts(c1, descriptors, flags, c.interruptStatus, first, second)
    case CancelOf(_) => CancelCurrent(c.(cancel := Delivered), descriptors)
  }

  ghost predicate Callable(w: World, k: Callback, cur: Driver.Request?)
    reads w`requests, w.device, w.device.currentTarget, cur, if cur == null then null else cur.target
  {
    Runs(w, cur) && (k.CancelOf? ==> cur != null && k.r == cur.id && cur.cancel == Requested)
  }

  method Call(w: World, k: Callback, ghost cur: Driver.Request?) returns (completed: Driver.Request?)
    requires w.Valid() && Callable(w, k, cur)
    modifies w.device, w.device.currentTarget, cur
    ensures w.Valid()
    ensures cur == null ==> completed == null && unchanged(w.device) && Driver.CurrentRequest(w.device) == null
    ensures cur != null ==>
              && Is(w, cur, ResultOf(k, old(Driver.CoreOf(w.device, cur)), cur.descriptors, w.flags))
              && cur.completions == 0 && completed == (if cur.ioComplete then cur else null)
  {
    match k
    case Timer =>
      completed := Driver.OnDelayTimerExpired(w.device);
    case DpcOf(first, second) =>
      completed := Driver.OnInterruptDpc(w.device, w.flags, first, second);
    case CancelOf(r) =>
      var found := Driver.OnCancel(w.device, w.requests[r]);
      completed := if found then w.requests[r] else null;
  }

  /** What a callback leaves alone. */
  method CallAndKeep(w: World, k: Callback, ghost cur: Driver.Request?) returns (completed: Driver.Request?)
    requires w.Valid() && Callable(w, k, cur)
    modifies w.device, w.device.currentTarget, cur
    ensures w.Valid()
    ensures cur == null ==> completed == null && unchanged(w.device)
    ensures cur != null ==>
              && Is(w, cur, ResultOf(k, old(Driver.CoreOf(w.device, cur)), cur.descriptors, w.flags))
              && cur.completions == 0 && completed == (if cur.ioComplete then cur else null)
    ensures OthersAs(w, old(w.Abs()), cur)
  {
    ghost var s := w.Abs();
    OthersOfAbs(w, cur);
    completed := Call(w, k, cur);
  }

  /** A completion that has been decided on is noted. */
  ghost method Note(w: World, completed: Driver.Request?, cur: Driver.Request?, s: State)
    requires w.Valid() && OthersAs(w, s, cur) && FrameworkAs(w, s, cur, 0)
    requires completed != null ==> completed == cur
    modifies w`pending
    ensures w.Valid() && OthersAs(w, s, cur) && FrameworkAs(w, s, cur, if completed == null then 0 else 1)
  {
    if completed != null {
      AddPending(w, completed.id);
    }
  }

  ghost method AddPending(w: World, r: RequestId)
    requires w.Valid() && r in w.requests
    modifies w`pending
    ensures w.Valid() && w.pending == old(w.pending) + multiset{r}
    ensures forall x | x in w.requests && x != r :: w.RequestState(x) == old(w.RequestState(x))
  {
    w.pending := w.pending + multiset{r};
  }

  /** One timer callback fewer is due. */
  method TakeOff(w: World)
    requires w.Valid() && w.queued > 0
    modifies w`queued
    ensures w.Valid() && w.Abs() == old(w.Abs()).(queued := old(w.queued) - 1)
    ensures w.requests == old(w.requests) && w.targets == old(w.targets) && w.pending == old(w.pending)
  {
    ghost var s := w.Abs();
    w.queued := w.queued - 1;
    assert w.TargetStates() == s.targets;
    assert w.RequestStates() == s.requests;
  }

  /** A callback on the objects, against the state it starts from. */
  method Section(w: World, k: Callback, ghost cur: Driver.Request?, ghost s: State)
    requires w.Valid() && Callable(w, k, cur) && s == w.Abs() && RunsIn(w.device, cur, s)
    modifies w.device, w.device.currentTarget, cur, w`pending
    ensures w.Valid()
    ensures cur == null ==> w.Abs() == s
    ensures cur != null ==>
              w.Abs() == Put(s, cur.id, ResultOf(k, CoreIn(s, cur.id), cur.descriptors, s.flags))
  {
    var completed := CallAndKeep(w, k, cur);
    Note(w, completed, cur, s);
    if cur == null {
      IdleRefines(w, s);
    } else {
      PutRefines(w, s, cur, ResultOf(k, CoreIn(s, cur.id), cur.descriptors, s.flags));
    }
  }

  /** The state in which the critical section of a callback runs. */
  function Begun(s: State, k: Callback): State
    requires k.Timer? ==> s.queued > 0
  {
    if k.Timer? then s.(queued := s.queued - 1) else s
  }

  lemma StepIsSection(s: State, k: Callback)
    requires Inv(s) && Enabled(s, EventOf(k))
    ensures CurrentKnown(s) && (k.CancelOf? ==> CurrentOf(s) == Some(k.r))
    ensures Step(s, EventOf(k)) ==
            match CurrentOf(s)
            case None => Begun(s, k)
            case Some(r) =>
              Put(Begun(s, k), r, ResultOf(k, CoreIn(Begun(s, k), r), s.requests[r].descriptors, s.flags))
  {
    CurrentKnownInv(s);
    if k.CancelOf? {
      CancelFindsRequest(s, k.r);
    }
  }

  lemma RunsBegun(d: Driver.Device, cur: Driver.Request?, s: State, k: Callback)
    requires RunsIn(d, cur, s) && (k.Timer? ==> s.queued > 0)
    ensures RunsIn(d, cur, Begun(s, k))
  {
  }

  method Begin(w: World, k: Callback)
    requires w.Valid() && (k.Timer? ==> w.queued > 0)
    modifies w`queued
    ensures w.Valid() && old(w.Valid() && (k.Timer? ==> w.queued > 0)) && w.Abs() == Begun(old(w.Abs()), k)
    ensures w.requests == old(w.requests) && w.targets == old(w.targets) && w.pending == old(w.pending)
  {
    if k.Timer? {
      TakeOff(w);
    }
  }

  method WholeSection(w: World, k: Callback, ghost cur: Driver.Request?, ghost s: State)
    requires w.Valid() && Callable(w, k, cur) && s == w.Abs() && RunsIn(w.device, cur, s)
    requires k.Timer? ==> s.queued > 0
    modifies w.device, w.device.currentTarget, cur, w`pending, w`queued
    ensures w.Valid()
    ensures cur == null ==> w.Abs() == Begun(s, k)
    ensures cur != null ==>
              w.Abs() == Put(Begun(s, k), cur.id, ResultOf(k, CoreIn(Begun(s, k), cur.id), cur.descriptors, s.flags))
  {
    RunsBegun(w.device, cur, s, k);
    Begin(w, k);
    Section(w, k, cur, Begun(s, k));
  }

  /** The timer callback, the deferred interrupt callback and the cancel callback
      are steps of the runs. */
  method RunCallback(w: World, k: Callback)
    requires w.Valid() && Inv(w.Abs()) && Enabled(w.Abs(), EventOf(k))
    modifies w.Repr()
    ensures w.Valid() && old(w.Valid() && Inv(w.Abs()) && Enabled(w.Abs(), EventOf(k)))
    ensures w.Abs() == Step(old(w.Abs()), EventOf(k))
  {
    ghost var s, cur := w.Abs(), Driver.CurrentRequest(w.device);
    CurrentObject(w);
    StepIsSection(s, k);
    WholeSection(w, k, cur, s);
  }

  // ---------------------------------------------------------------------
  // The other events

  method CallComplete(w: World, r: RequestId)
    requires w.Valid() && r in w.requests && w.pending[r] > 0
    modifies w.requests[r], w`pending
    ensures w.Valid() && w.TargetStates() == old(w.TargetStates())
    ensures w.RequestState(r) == Completed(old(w.RequestState(r)))
    ensures forall x | x in w.requests && x != r :: w.RequestState(x) == old(w.RequestState(x))
  {
    Driver.PbcRequestComplete(w.requests[r]);
    w.pending := w.pending - multiset{r};
  }

  method CompleteOnObjects(w: World, r: RequestId)
    requires w.Valid() && r in w.requests && w.pending[r] > 0
    modifies w.requests[r], w`pending
    ensures w.Valid() && w.TargetStates() == old(w.TargetStates())
    ensures w.RequestStates() == old(w.RequestStates())[r := Completed(old(w.RequestState(r)))]
  {
    ghost var before := w.RequestStates();
    CallComplete(w, r);
    OneUpdated(w, before, r);
  }

  method CompleteInState(w: World, r: RequestId)
    requires w.Valid() && r in w.requests && w.pending[r] > 0
    modifies w.requests[r], w`pending
    ensures w.Valid() && old(r in w.Abs().requests && w.Abs().requests[r].pending > 0)
    ensures w.Abs() == CompleteStep(old(w.Abs()), r)
  {
    ghost var s := w.Abs();
    CompleteOnObjects(w, r);
    AbsIs(w, CompleteStep(s, r));
  }

  method RunComplete(w: World, r: RequestId)
    requires w.Valid() && Inv(w.Abs()) && Enabled(w.Abs(), Complete(r))
    modifies w.Repr()
    ensures w.Valid() && w.Abs() == Step(old(w.Abs()), Complete(r))
  {
    CompleteInState(w, r);
  }

  method CallInterrupt(w: World, stat: Bits)
    requires w.Valid()
    modifies w.device
    ensures w.Valid() && w.Abs() == old(w.Abs()).(interruptStatus := old(w.device.interruptStatus) + stat)
  {
    var recognized := Driver.OnInterruptIsr(w.device, stat);
  }

  method RunInterrupt(w: World, stat: Bits)
    requires w.Valid() && Inv(w.Abs()) && stat != {}
    modifies w.Repr()
    ensures w.Valid() && w.Abs() == Step(old(w.Abs()), Event.Interrupt(stat))
  {
    CallInterrupt(w, stat);
  }

  method SetLockOwner(w: World, owner: Option<TargetId>)
    requires w.Valid()
    modifies w`lockOwner
    ensures w.Valid() && w.Abs() == old(w.Abs()).(lockOwner := owner)
    ensures w.targets == old(w.targets)
  {
    ghost var s := w.Abs();
    w.lockOwner := owner;
    AbsIs(w, s.(lockOwner := owner));
  }

  method CallLock(w: World, t: TargetId)
    requires w.Valid() && t in w.targets && w.device.currentTarget == null
    modifies w.device
    ensures w.Valid() && w.Abs() == old(w.Abs()).(currentTarget := Some(t))
  {
    Driver.OnControllerLock(w.device, w.targets[t]);
  }

  method RunLock(w: World, t: TargetId)
    requires w.Valid() && Inv(w.Abs()) && Enabled(w.Abs(), Lock(t))
    modifies w.Repr()
    ensures w.Valid() && w.Abs() == Step(old(w.Abs()), Lock(t))
  {
    NothingCurrentWhenQuiet(w.Abs());
    CallLock(w, t);
    SetLockOwner(w, Some(t));
  }

  method CallUnlock(w: World, t: TargetId)
    requires w.Valid() && t in w.targets && w.device.currentTarget == w.targets[t]
    modifies w.device
    ensures w.Valid() && w.Abs() == old(w.Abs()).(currentTarget := None)
  {
    Driver.OnControllerUnlock(w.device, w.targets[t]);
  }

  method RunUnlock(w: World, t: TargetId)
    requires w.Valid() && Inv(w.Abs()) && Enabled(w.Abs(), Unlock(t))
    modifies w.Repr()
    ensures w.Valid() && w.Abs() == Step(old(w.Abs()), Unlock(t))
  {
    NothingCurrentWhenQuiet(w.Abs());
    CallUnlock(w, t);
    SetLockOwner(w, None);
  }

  /** A request is presented: the framework makes an object for it. */
  method Present(w: World, r: RequestId, t: TargetId, descriptors: seq<Descriptor>, early: bool, flag: Bits)
    returns (q: Driver.Request)
    requires w.Valid() && t in w.targets && r !in w.requests
    modifies w`requests, w`pending
    ensures fresh(q) && q.id == r && q.target == w.targets[t] && q.descriptors == descriptors
    ensures q.Ctx() == ClearedContext(flag) && q.cancel == (if early then CancelledEarly else NotMarked)
    ensures q.trace == [] && q.completions == 0
    ensures w.Valid() && w.requests == old(w.requests)[r := q] && w.pending == old(w.pending)[r := 0]
    ensures forall x | x in old(w.requests) :: w.RequestState(x) == old(w.RequestState(x))
  {
    q := new Driver.Request(r, w.targets[t], descriptors, flag);
    if early {
      q.cancel := CancelledEarly;
    }
    w.requests := w.requests[r := q];
    w.pending := w.pending[r := 0];
  }

  method Deliver(w: World, q: Driver.Request, kind: RequestKind, position: Position) returns (completeRequest: bool)
    requires w.Valid() && q.id in w.requests && w.requests[q.id] == q
    requires |q.descriptors| > 0 && (kind != Sequence ==> |q.descriptors| == 1)
    requires q.cancel == NotMarked || q.cancel == CancelledEarly
    requires q.target.currentRequest == null && q.sequencePosition == Single && q.completions == 0
    requires w.device.currentTarget == (if kind == Sequence || position == Single then null else q.target)
    modifies w.device, q.target, q
    ensures w.Valid()
    ensures old(Driver.Accepts(q)) ==>
              && Is(w, q, DoTransfer(Driver.StartCore(old(Driver.CoreOf(w.device, q)), kind,
                                                     DispatchPosition(kind, position), q.descriptors), q.descriptors))
              && completeRequest == q.ioComplete && q.completions == 0
    ensures !old(Driver.Accepts(q)) ==>
              !completeRequest && Driver.Refused(w.device, q, kind, DispatchPosition(kind, position))
  {
    if kind == Sequence {
      completeRequest := Driver.OnSequence(w.device, q.target, q, |q.descriptors|);
    } else {
      completeRequest := Driver.PbcRequestConfigureForNonSequence(w.device, q.target, q, kind, position);
    }
  }

  method PresentInState(w: World, r: RequestId, t: TargetId, descriptors: seq<Descriptor>, early: bool, flag: Bits)
    returns (q: Driver.Request)
    requires w.Valid() && t in w.targets && r !in w.requests
    modifies w`requests, w`pending
    ensures fresh(q) && q.id == r && q.target == w.targets[t] && q.descriptors == descriptors
    ensures q.Ctx() == ClearedContext(flag) && q.cancel == (if early then CancelledEarly else NotMarked)
    ensures q.trace == [] && q.completions == 0
    ensures w.Valid() && w.requests == old(w.requests)[r := q] && w.pending == old(w.pending)[r := 0]
    ensures w.Abs().requests.Keys == old(w.Abs()).requests.Keys + {r} && w.Abs().targets == old(w.Abs()).targets
    ensures forall x | x in old(w.Abs()).requests :: w.Abs().requests[x] == old(w.Abs()).requests[x]
  {
    ghost var s := w.Abs();
    q := Present(w, r, t, descriptors, early, flag);
    assert w.TargetStates() == s.targets;
  }

  ghost method FinishAccepted(w: World, s: State, now: State, q: Driver.Request, taken: State, c: Core,
                              completeRequest: bool)
    requires w.Valid() && Presented(s, now, q) && OthersAs(w, now, q) && Is(w, q, c)
    requires w.requests[q.id] == q && q.completions == 0 && w.pending[q.id] == 0 && completeRequest == c.ctx.ioComplete
    requires w.lockOwner == s.lockOwner && w.queued == s.queued && w.flags == s.flags
    requires exists ctx :: taken == Taken(s, q.id, q.target.id, ctx, q.descriptors)
    modifies w`pending
    ensures w.Valid() && w.Abs() == Put(taken, q.id, c)
  {
    if completeRequest {
      AddPending(w, q.id);
    }
    AcceptedRefines(w, s, now, q, taken, c);
  }

  /** A request that has just been presented, in the state s so far. */
  ghost predicate New(w: World, q: Driver.Request, kind: RequestKind, position: Position, early: bool, flag: Bits,
                      s: State)
    reads w, w.device, q, q.target
  {
    && q.id !in s.requests && q.target.id in s.targets && s.targets[q.target.id] == None
    && w.Shell() == s.(targets := map[], requests := map[])
    && q.id in w.requests && w.requests[q.id] == q && w.pending[q.id] == 0
    && |q.descriptors| > 0 && (kind != Sequence ==> |q.descriptors| == 1)
    && q.Ctx() == ClearedContext(flag) && q.cancel == (if early then CancelledEarly else NotMarked)
    && q.trace == [] && q.completions == 0 && q.target.currentRequest == null
    && w.device.currentTarget == (if kind == Sequence || position == Single then null else q.target)
  }

  /** What a request that is taken on starts from, in the state and on the objects. */
  ghost function StartOf(s: State, q: Driver.Request, kind: RequestKind, position: Position, flag: Bits): Core
    requires |q.descriptors| > 0
  {
    CoreIn(Taken(s, q.id, q.target.id, FirstContext(kind, position, q.descriptors, flag), q.descriptors), q.id)
  }

  lemma StartsAs(w: World, q: Driver.Request, kind: RequestKind, position: Position, early: bool, flag: Bits, s: State)
    requires New(w, q, kind, position, early, flag, s)
    ensures Driver.StartCore(Driver.CoreOf(w.device, q), kind, DispatchPosition(kind, position), q.descriptors) ==
            StartOf(s, q, kind, position, flag)
  {
  }

  /** The delivery of a request leaves the others alone. */
  method DeliverAndKeep(w: World, q: Driver.Request, kind: RequestKind, position: Position, ghost now: State)
    returns (completeRequest: bool)
    requires w.Valid() && q.id in w.requests && w.requests[q.id] == q && OthersAs(w, now, q)
    requires |q.descriptors| > 0 && (kind != Sequence ==> |q.descriptors| == 1)
    requires q.cancel == NotMarked || q.cancel == CancelledEarly
    requires q.target.currentRequest == null && q.sequencePosition == Single && q.completions == 0
    requires w.device.currentTarget == (if kind == Sequence || position == Single then null else q.target)
    modifies w.device, q.target, q
    ensures w.Valid() && OthersAs(w, now, q)
    ensures old(Driver.Accepts(q)) ==>
              && Is(w, q, DoTransfer(Driver.StartCore(old(Driver.CoreOf(w.device, q)), kind,
                                                     DispatchPosition(kind, position), q.descriptors), q.descriptors))
              && completeRequest == q.ioComplete && q.completions == 0
    ensures !old(Driver.Accepts(q)) ==>
              !completeRequest && Driver.Refused(w.device, q, kind, DispatchPosition(kind, position))
  {
    completeRequest := Deliver(w, q, kind, position);
  }

  lemma RefusedIs(w: World, s: State, q: Driver.Request, ctx: Context, early: bool)
    requires q.id in w.requests && w.requests[q.id] == q && w.pending[q.id] == 0 && q.target.currentRequest == null
    requires q.Ctx() == ctx && q.cancel == (if early then CancelledEarly else NotMarked) && q.trace == []
    requires q.completions == 1 && q.reportedInformation == 0
    requires q.reportedStatus == if TooLong(q.descriptors) then InvalidParameter else Cancelled
    requires w.Shell() == s.(targets := map[], requests := map[])
    ensures RefusedAs(w, s, q, ctx, early)
  {
  }

  /** The delivery of a new request, against the state. */
  method DeliverNew(w: World, q: Driver.Request, kind: RequestKind, position: Position, ghost early: bool,
                    ghost flag: Bits, ghost s: State, ghost now: State) returns (completeRequest: bool)
    requires w.Valid() && New(w, q, kind, position, early, flag, s) && OthersAs(w, now, q)
    modifies w.device, q.target, q
    ensures w.Valid() && OthersAs(w, now, q)
    ensures !TooLong(q.descriptors) && !early ==>
              && Is(w, q, DoTransfer(StartOf(s, q, kind, position, flag), q.descriptors))
              && completeRequest == q.ioComplete && q.completions == 0
    ensures TooLong(q.descriptors) || early ==>
              RefusedAs(w, s, q, RefusedContext(kind, position, q.descriptors, flag), early)
  {
    StartsAs(w, q, kind, position, early, flag, s);
    completeRequest := DeliverAndKeep(w, q, kind, position, now);
    if TooLong(q.descriptors) || early {
      RefusedIs(w, s, q, RefusedContext(kind, position, q.descriptors, flag), early);
    }
  }

  /** The dispatch of a request that has just been presented. */
  method DispatchNew(w: World, q: Driver.Request, kind: RequestKind, position: Position, ghost early: bool,
                     ghost flag: Bits, ghost s: State)
    requires w.Valid() && New(w, q, kind, position, early, flag, s) && Presented(s, w.Abs(), q)
    modifies w`pending, w.device, q.target, q
    ensures w.Valid()
    ensures w.Abs() == DispatchStep(s, q.id, q.target.id, kind, position, q.descriptors, early, flag)
  {
    ghost var now, ctx := w.Abs(), FirstContext(kind, position, q.descriptors, flag);
    ghost var taken := Taken(s, q.id, q.target.id, ctx, q.descriptors);
    var completeRequest := DeliverNew(w, q, kind, position, early, flag, s, now);
    if !TooLong(q.descriptors) && !early {
      FinishAccepted(w, s, now, q, taken, DoTransfer(CoreIn(taken, q.id), q.descriptors), completeRequest);
    } else {
      RefusedRefines(w, s, now, q, RefusedContext(kind, position, q.descriptors, flag), early);
    }
  }

  method Dispatching(w: World, r: RequestId, t: TargetId, kind: RequestKind, position: Position,
                     descriptors: seq<Descriptor>, early: bool, flag: Bits, ghost s: State)
    requires w.Valid() && s == w.Abs() && t in w.targets && r !in w.requests && w.targets[t].currentRequest == null
    requires |descriptors| > 0 && (kind != Sequence ==> |descriptors| == 1)
    requires w.device.currentTarget == (if kind == Sequence || position == Single then null else w.targets[t])
    modifies w, w.device, w.targets[t]
    ensures w.Valid() && w.Abs() == DispatchStep(s, r, t, kind, position, descriptors, early, flag)
  {
    assert w.TargetState(t) == s.targets[t];
    var q := PresentInState(w, r, t, descriptors, early, flag);
    DispatchNew(w, q, kind, position, early, flag, s);
  }

  /** A dispatch is a step of the runs. */
  method RunDispatch(w: World, r: RequestId, t: TargetId, kind: RequestKind, position: Position,
                     descriptors: seq<Descriptor>, early: bool, flag: Bits)
    requires w.Valid() && Inv(w.Abs()) && Enabled(w.Abs(), Dispatch(r, t, kind, position, descriptors, early, flag))
    modifies w.Repr()
    ensures w.Valid()
    ensures w.Abs() == Step(old(w.Abs()), Dispatch(r, t, kind, position, descriptors, early, flag))
  {
    NothingCurrentWhenQuiet(w.Abs());
    assert w.TargetState(t) == w.Abs().targets[t];
    Dispatching(w, r, t, kind, position, descriptors, early, flag, w.Abs());
  }
}
