/** Runs of the SkeletonI2C driver: every interleaving of the dispatches of the
    framework, the delay timer, interrupts, cancels and deferred completions. A
    callback's critical section is one step; the completion of a request, which
    happens after the lock is released, is a step of its own. */
module SpbRuns {
  import opened CaseFold
  import opened SpbCore
  import opened SpbInvariant

  type TargetId = nat
  type RequestId = nat

  datatype Report = Report(status: Status, information: nat)

  /** A request as the framework and the driver together see it. */
  datatype Request = Request(
    target: TargetId,
    descriptors: seq<Descriptor>,
    ctx: Context,
    cancel: CancelState,
    trace: seq<Entry>,
    /** Callbacks that have decided to complete it and have not done so yet. */
    pending: nat,
    completions: nat,
    report: Option<Report>)

  datatype State = State(
    currentTarget: Option<TargetId>,
    targets: map<TargetId, Option<RequestId>>,
    requests: map<RequestId, Request>,
    lockOwner: Option<TargetId>,
    armed: bool,
    /** Timer callbacks that are due and have not run yet, stale ones included. */
    queued: nat,
    mask: Bits,
    interruptStatus: Bits,
    flags: Flags)

  datatype Event =
    | Connect(t: TargetId)
    | Lock(t: TargetId)
    | Unlock(t: TargetId)
    | Dispatch(r: RequestId, t: TargetId, kind: RequestKind, position: Position, descriptors: seq<Descriptor>,
               cancelledEarly: bool, dataReadyFlag: Bits)
    | TimerExpires
    | TimerCallback
    | Interrupt(stat: Bits)
    | Dpc(first: TransferOutcome, second: TransferOutcome)
    | CancelRequest(r: RequestId)
    | CancelCallback(r: RequestId)
    | Complete(r: RequestId)
    | PowerCycle

  // ---------------------------------------------------------------------
  // Steps

  function CurrentOf(s: State): Option<RequestId> {
    if s.currentTarget.None? || s.currentTarget.value !in s.targets then None
    else s.targets[s.currentTarget.value]
  }

  function CoreIn(s: State, r: RequestId): Core
    requires r in s.requests && s.requests[r].target in s.targets
  {
    var q := s.requests[r];
    Core(q.ctx, q.cancel, q.trace, s.targets[q.target] == Some(r), s.currentTarget == Some(q.target),
         s.armed, s.mask, s.interruptStatus)
  }

  /** The state after a critical section for r, which will complete the request
      after the lock if it has marked it complete. */
  function Put(s: State, r: RequestId, c: Core): State
    requires r in s.requests && s.requests[r].target in s.targets
  {
    var q := s.requests[r];
    s.(requests := s.requests[r := q.(ctx := c.ctx, cancel := c.cancel, trace := c.trace,
                                      pending := q.pending + if c.ctx.ioComplete then 1 else 0)],
       targets := s.targets[q.target := if c.current then Some(r) else None],
       currentTarget := if c.owned then Some(q.target) else None,
       armed := c.armed, mask := c.mask, interruptStatus := c.interruptStatus)
  }

  /** The queue is sequential: the next request is presented when the one before
      has been completed. */
  ghost predicate Quiet(s: State) {
    forall r | r in s.requests :: s.requests[r].completions > 0
  }

  /** Between a lock and an unlock, the queue presents transfers of the locking
      target only; otherwise single transfers and sequences. */
  predicate FitsLock(s: State, t: TargetId, kind: RequestKind, position: Position) {
    match s.lockOwner
    case None => kind == Sequence || position == Single
    case Some(owner) => t == owner && kind != Sequence && position != Single
  }

  ghost predicate Enabled(s: State, e: Event) {
    match e
    case Connect(t) => t !in s.targets
    case Lock(t) => Quiet(s) && t in s.targets && s.lockOwner.None?
    case Unlock(t) => Quiet(s) && s.lockOwner == Some(t)
    case Dispatch(r, t, kind, position, descriptors, _, _) =>
      && Quiet(s) && r !in s.requests && t in s.targets && FitsLock(s, t, kind, position)
      && |descriptors| > 0 && (kind != Sequence ==> |descriptors| == 1)
    case TimerExpires => s.armed
    case TimerCallback => s.queued > 0
    case Interrupt(stat) => stat != {}
    case Dpc(_, _) => true
    case CancelRequest(r) => r in s.requests
    case CancelCallback(r) => r in s.requests && s.requests[r].cancel == Requested
    case Complete(r) => r in s.requests && s.requests[r].pending > 0
    case PowerCycle => Quiet(s) && s.lockOwner.None?
  }

  /** The position a dispatch puts into the context: that of a sequence follows
      from its transfers later. */
  function DispatchPosition(kind: RequestKind, position: Position): Position {
    if kind == Sequence then Single else position
  }

  function FirstContext(kind: RequestKind, position: Position, descriptors: seq<Descriptor>,
                        dataReadyFlag: Bits): Context
    requires |descriptors| > 0
  {
    StartContext(ClearedContext(dataReadyFlag), kind, DispatchPosition(kind, position), descriptors)
  }

  /** The request is made current, before its first transfer is started. */
  function Taken(s: State, r: RequestId, t: TargetId, ctx: Context, descriptors: seq<Descriptor>): State {
    s.(requests := s.requests[r := Request(t, descriptors, ctx, Cancelable, [], 0, 0, None)],
       targets := s.targets[t := Some(r)],
       currentTarget := Some(t))
  }

  function Refuse(s: State, r: RequestId, t: TargetId, ctx: Context, descriptors: seq<Descriptor>,
                  cancelState: CancelState, status: Status): State
  {
    s.(requests := s.requests[r := Request(t, descriptors, ctx, cancelState, [], 0, 1, Some(Report(status, 0)))])
  }

  function DispatchStep(s: State, r: RequestId, t: TargetId, kind: RequestKind, position: Position,
                        descriptors: seq<Descriptor>, cancelledEarly: bool, dataReadyFlag: Bits): State
    requires |descriptors| > 0
  {
    var ctx := FirstContext(kind, position, descriptors, dataReadyFlag);
    if TooLong(descriptors) then
      var unloaded := InitialContext(ClearedContext(dataReadyFlag), kind, DispatchPosition(kind, position),
                                     |descriptors|);
      Refuse(s, r, t, unloaded, descriptors, if cancelledEarly then CancelledEarly else NotMarked, InvalidParameter)
    else if cancelledEarly then Refuse(s, r, t, ctx, descriptors, CancelledEarly, Cancelled)
    else
      var taken := Taken(s, r, t, ctx, descriptors);
      Put(taken, r, DoTransfer(CoreIn(taken, r), descriptors))
  }

  function TimerStep(s: State): State
    requires s.queued > 0 && CurrentKnown(s)
  {
    var s1 := s.(queued := s.queued - 1);
    match CurrentOf(s)
    case None => s1
    case Some(r) => Put(s1, r, ConfigureForTransfer(CoreIn(s1, r), s.requests[r].descriptors))
  }

  function DpcStep(s: State, first: TransferOutcome, second: TransferOutcome): State
    requires CurrentKnown(s)
  {
    match CurrentOf(s)
    case None => s
    case Some(r) =>
      var c := CoreIn(s, r).(interruptStatus := {});
      if s.interruptStatus == {} then Put(s, r, c)
      else Put(s, r, ProcessInterrupts(c, s.requests[r].descriptors, s.flags, s.interruptStatus, first, second))
  }

  /** The cancel callback, with its two early exits. */
  function CancelStep(s: State, r: RequestId): State
    requires r in s.requests && Known(s, r)
  {
    var q := s.requests[r];
    if s.currentTarget != Some(q.target) || s.targets[q.target] != Some(r) then
      s.(requests := s.requests[r := q.(cancel := Delivered)])
    else Put(s, r, CancelCurrent(CoreIn(s, r).(cancel := Delivered), q.descriptors))
  }

  /** The completion of a request, with the status and the count it has then. */
  function Completed(q: Request): Request
    requires q.pending > 0
  {
    q.(pending := q.pending - 1, completions := q.completions + 1,
       report := Some(Report(q.ctx.status, q.ctx.totalInformation)))
  }

  function CompleteStep(s: State, r: RequestId): State
    requires r in s.requests && s.requests[r].pending > 0
  {
    s.(requests := s.requests[r := Completed(s.requests[r])])
  }

  predicate Known(s: State, r: RequestId)
    requires r in s.requests
  {
    s.requests[r].target in s.targets && s.requests[r].ctx.transferCount == |s.requests[r].descriptors|
  }

  predicate CurrentKnown(s: State) {
    CurrentOf(s).Some? ==> CurrentOf(s).value in s.requests && Known(s, CurrentOf(s).value)
  }

  function Step(s: State, e: Event): State
    requires Inv(s) && Enabled(s, e)
  {
    match e
    case Connect(t) => s.(targets := s.targets[t := None])
    case Lock(t) => s.(currentTarget := Some(t), lockOwner := Some(t))
    case Unlock(t) => s.(currentTarget := None, lockOwner := None)
    case Dispatch(r, t, kind, position, descriptors, early, flag) =>
      DispatchStep(s, r, t, kind, position, descriptors, early, flag)
    case TimerExpires => s.(armed := false, queued := s.queued + 1)
    case TimerCallback => TimerStep(s)
    case Interrupt(stat) => s.(interruptStatus := s.interruptStatus + stat)
    case Dpc(first, second) => DpcStep(s, first, second)
    case CancelRequest(r) =>
      if s.requests[r].cancel == Cancelable then s.(requests := s.requests[r := s.requests[r].(cancel := Requested)])
      else s
    case CancelCallback(r) => CancelStep(s, r)
    case Complete(r) => CompleteStep(s, r)
    case PowerCycle => s.(currentTarget := None)
  }

  // ---------------------------------------------------------------------
  // What holds in every state of every run

  /** A request that is not current is either about to be completed once, or has
      been completed once. */
  ghost predicate Ended(q: Request) {
    && q.completions + q.pending == 1
    && (q.completions == 1 <==> q.report.Some?)
    && if q.cancel == NotMarked || q.cancel == CancelledEarly then
         && q.trace == [] && q.report.Some? && q.report.value.information == 0
         && (q.report.value.status == InvalidParameter || q.report.value.status == Cancelled)
       else
         && Done(Core(q.ctx, q.cancel, q.trace, false, !ReleasesTarget(q.ctx), false, {}, {}), q.descriptors)
         && (q.report.Some? ==> q.report.value == Report(q.ctx.status, q.ctx.totalInformation))
  }

  /** A current request has not been completed, and something is on its way that
      will bring it on: the timer, a timer callback, or a cancel callback. */
  ghost predicate Working(s: State, r: RequestId)
    requires r in s.requests && s.requests[r].target in s.targets
  {
    var q := s.requests[r];
    && q.completions == 0 && q.pending == 0 && q.report.None?
    && Live(CoreIn(s, r), q.descriptors)
    && (s.armed || s.queued > 0 || q.cancel == Requested)
  }

  ghost predicate RequestOk(s: State, r: RequestId)
    requires r in s.requests
  {
    var q := s.requests[r];
    && q.target in s.targets
    && if s.targets[q.target] == Some(r) then Working(s, r) else Ended(q)
  }

  /** A target has a current request only while it is the current target. */
  ghost predicate TargetsOk(s: State) {
    && (s.currentTarget.Some? ==> s.currentTarget.value in s.targets)
    && forall t | t in s.targets && s.targets[t].Some? ::
         s.currentTarget == Some(t) && s.targets[t].value in s.requests && s.requests[s.targets[t].value].target == t
  }

  ghost predicate OneAtATime(s: State) {
    forall q, r | q in s.requests && r in s.requests && s.requests[q].completions == 0 == s.requests[r].completions ::
      q == r
  }

  /** The current target is the lock owner, unless a request that came outside a
      lock has the controller. */
  ghost predicate OwnerOk(s: State) {
    match CurrentOf(s)
    case None => s.currentTarget == s.lockOwner
    case Some(r) =>
      r in s.requests && if ReleasesTarget(s.requests[r].ctx) then s.lockOwner.None? else s.lockOwner == s.currentTarget
  }

  ghost predicate Inv(s: State) {
    && TargetsOk(s)
    && (forall r | r in s.requests :: RequestOk(s, r))
    && OneAtATime(s)
    && OwnerOk(s)
  }

  /** The invariant, but for the account of request r, which is the current one. */
  ghost predicate InvBut(s: State, r: RequestId) {
    && TargetsOk(s) && OneAtATime(s) && OwnerOk(s)
    && r in s.requests && CurrentOf(s) == Some(r)
    && s.requests[r].completions == 0 && s.requests[r].pending == 0 && s.requests[r].report.None?
    && forall x | x in s.requests && x != r :: RequestOk(s, x)
  }

  lemma CurrentIsWorking(s: State, r: RequestId)
    requires Inv(s) && CurrentOf(s) == Some(r)
    ensures r in s.requests && s.currentTarget == Some(s.requests[r].target) && Working(s, r) && InvBut(s, r)
  {
    assert RequestOk(s, r);
  }

  lemma PutKeeps(s: State, r: RequestId, c: Core)
    requires InvBut(s, r)
    requires SameRequest(s.requests[r].ctx, c.ctx)
    requires if c.current then Live(c, s.requests[r].descriptors) && (c.armed || s.queued > 0 || c.cancel == Requested)
             else Done(c, s.requests[r].descriptors)
    ensures Inv(Put(s, r, c))
  {
    var s' := Put(s, r, c);
    var t := s.requests[r].target;
    assert ReleasesTarget(c.ctx) == ReleasesTarget(s.requests[r].ctx);
    forall x | x in s'.requests
      ensures RequestOk(s', x)
    {
      if x == r {
        if c.current {
          assert CoreIn(s', r) == c;
        } else {
          var q := s'.requests[r];
          DoneAnywhere(c, s.requests[r].descriptors);
        }
      } else {
        assert RequestOk(s, x);
        assert s.targets[s.requests[x].target] != Some(x);
      }
    }
  }

  lemma DoneAnywhere(c: Core, descriptors: seq<Descriptor>)
    requires Done(c, descriptors)
    ensures Done(Core(c.ctx, c.cancel, c.trace, false, !ReleasesTarget(c.ctx), false, {}, {}), descriptors)
  {
  }

  lemma CurrentKnownInv(s: State)
    requires Inv(s)
    ensures CurrentKnown(s)
  {
    if CurrentOf(s).Some? {
      CurrentIsWorking(s, CurrentOf(s).value);
    }
  }
}
