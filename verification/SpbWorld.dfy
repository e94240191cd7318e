/** The objects of the driver together with what the framework keeps for them,
    and the state of the runs that they stand for. */
module SpbWorld {
  import opened CaseFold
  import opened SpbCore
  import Driver = SpbDriver
  import opened SpbRuns

  class World {
    const device: Driver.Device
    const flags: Flags
    var targets: map<TargetId, Driver.Target>
    var requests: map<RequestId, Driver.Request>
    // The framework's part.
    var lockOwner: Option<TargetId>
    var queued: nat
    /** The completions that callbacks have decided on and not carried out yet. */
    ghost var pending: multiset<RequestId>

    constructor (flags: Flags)
      ensures Valid() && fresh(Repr()) && this.flags == flags
      ensures targets == map[] && requests == map[] && lockOwner == None && queued == 0
      ensures device.currentTarget == null && !device.timerStarted && device.interruptStatus == {}
    {
      device := new Driver.Device();
      this.flags := flags;
      targets, requests, pending := map[], map[], multiset{};
      lockOwner, queued := None, 0;
    }

    ghost function TargetObjects(): set<object>
      reads this`targets
    {
      set t | t in targets :: targets[t]
    }

    ghost function RequestObjects(): set<object>
      reads this`requests
    {
      set r | r in requests :: requests[r]
    }

    ghost function Footprint(): set<object>
      reads this`targets, this`requests
    {
      {device} + TargetObjects() + RequestObjects()
    }

    ghost function Repr(): set<object>
      reads this`targets, this`requests
    {
      {this} + Footprint()
    }

    /** Every object is where its id says. */
    ghost predicate Valid()
      reads this`targets, this`requests, Footprint()
    {
      && (forall t | t in targets :: targets[t].id == t)
      && (forall r | r in requests :: RequestPlaced(r))
      && (device.currentTarget != null ==> Listed(device.currentTarget))
      && (forall t | t in targets && targets[t].currentRequest != null ::
            targets[t].currentRequest.id in requests
            && requests[targets[t].currentRequest.id] == targets[t].currentRequest)
    }

    ghost predicate RequestPlaced(r: RequestId)
      reads this`targets, this`requests
      requires r in requests
    {
      requests[r].id == r && Listed(requests[r].target)
    }

    ghost predicate Listed(t: Driver.Target)
      reads this`targets
    {
      t.id in targets && targets[t.id] == t
    }

    ghost function TargetState(t: TargetId): Option<RequestId>
      reads this`targets, targets[t]
      requires t in targets
    {
      if targets[t].currentRequest == null then None else Some(targets[t].currentRequest.id)
    }

    ghost function RequestState(r: RequestId): Request
      reads this`requests, this`pending, requests[r]
      requires r in requests
    {
      var q := requests[r];
      Request(q.target.id, q.descriptors, q.Ctx(), q.cancel, q.trace, pending[r], q.completions,
              if q.completions == 0 then None else Some(Report(q.reportedStatus, q.reportedInformation)))
    }

    ghost function OwnerState(): Option<TargetId>
      reads device
    {
      if device.currentTarget == null then None else Some(device.currentTarget.id)
    }

    ghost function TargetStates(): map<TargetId, Option<RequestId>>
      reads this`targets, TargetObjects()
    {
      map t | t in targets :: TargetState(t)
    }

    ghost function RequestStates(): map<RequestId, Request>
      reads this`requests, this`pending, RequestObjects()
    {
      map r | r in requests :: RequestState(r)
    }

    /** The same without targets and requests. */
    ghost function Shell(): State
      reads this, device
    {
      State(OwnerState(), map[], map[], lockOwner, device.timerStarted, queued, device.interruptMask,
            device.interruptStatus, flags)
    }

    /** The state that the objects stand for. */
    ghost function Abs(): State
      requires Valid()
      reads this, Footprint()
    {
      State(OwnerState(),
            TargetStates(),
            RequestStates(),
            lockOwner, device.timerStarted, queued, device.interruptMask, device.interruptStatus, flags)
    }
  }

  /** The other requests and targets are as in the state. */
  ghost predicate OthersAs(w: World, s: State, cur: Driver.Request?)
    reads w`targets, w`requests, w`pending
    reads w.TargetObjects() - (if cur == null then {} else {cur.target})
    reads w.RequestObjects() - (if cur == null then {} else {cur})
  {
    && w.requests.Keys == s.requests.Keys && w.targets.Keys == s.targets.Keys
    && (forall x | x in w.requests && w.requests[x] != cur :: w.RequestState(x) == s.requests[x])
    && (forall t | t in w.targets && (cur == null || w.targets[t] != cur.target) :: w.TargetState(t) == s.targets[t])
  }

  lemma OthersOfAbs(w: World, cur: Driver.Request?)
    requires w.Valid()
    ensures OthersAs(w, w.Abs(), cur)
  {
  }

  /** The framework's part is as in the state, and its account of the request,
      with so many completions more to come. */
  ghost predicate FrameworkAs(w: World, s: State, cur: Driver.Request?, more: nat)
    reads w, cur
  {
    && w.lockOwner == s.lockOwner && w.queued == s.queued && w.flags == s.flags
    && (cur != null ==>
          && cur.id in s.requests && cur.id in w.requests && w.requests[cur.id] == cur
          && cur.target.id in s.targets && cur.completions == 0
          && var q := s.requests[cur.id];
             q.target == cur.target.id && q.descriptors == cur.descriptors && q.completions == 0 && q.report == None
             && w.pending[cur.id] == q.pending + more)
  }

  /** What a critical section has made of its request. */
  ghost predicate Is(w: World, cur: Driver.Request, c: Core)
    reads w.device, cur, cur.target
  {
    Driver.CoreOf(w.device, cur) == c && Driver.NothingElse(w.device, cur)
  }

  function More(c: Core): nat {
    if c.ctx.ioComplete then 1 else 0
  }

  /** A critical section that makes c of its request puts c into the state. */
  lemma PutRefines(w: World, s: State, cur: Driver.Request, c: Core)
    requires w.Valid() && OthersAs(w, s, cur) && FrameworkAs(w, s, cur, More(c)) && Is(w, cur, c)
    ensures w.Abs() == Put(s, cur.id, c)
  {
    PutTargets(w, s, cur, c);
    PutRequests(w, s, cur, c);
  }

  lemma PutTargets(w: World, s: State, cur: Driver.Request, c: Core)
    requires w.Valid() && OthersAs(w, s, cur) && FrameworkAs(w, s, cur, More(c)) && Is(w, cur, c)
    ensures w.TargetStates() == Put(s, cur.id, c).targets
  {
    assert w.RequestPlaced(cur.id);
    var t := cur.target.id;
    assert w.TargetState(t) == if c.current then Some(cur.id) else None;
    var after := s.targets[t := if c.current then Some(cur.id) else None];
    forall x | x in w.targets
      ensures w.TargetStates()[x] == after[x]
    {
      assert x == t || w.targets[x] != cur.target;
    }
  }

  lemma PutRequests(w: World, s: State, cur: Driver.Request, c: Core)
    requires w.Valid() && OthersAs(w, s, cur) && FrameworkAs(w, s, cur, More(c)) && Is(w, cur, c)
    ensures w.RequestStates() == Put(s, cur.id, c).requests
  {
    var after := Put(s, cur.id, c).requests;
    forall x | x in w.requests
      ensures w.RequestStates()[x] == after[x]
    {
      assert x == cur.id || (w.RequestPlaced(x) && w.requests[x] != cur);
    }
  }

  /** The current request on the objects. */
  ghost predicate Runs(w: World, cur: Driver.Request?)
    reads w`requests, w.device, w.device.currentTarget, cur, if cur == null then null else cur.target
  {
    && cur == Driver.CurrentRequest(w.device)
    && (cur != null ==>
          && cur.id in w.requests && w.requests[cur.id] == cur
          && Driver.Active(w.device, cur) && Driver.CanBeUnmarked(cur) && !cur.ioComplete && cur.completions == 0)
  }

  /** The current request in the state. */
  ghost predicate RunsIn(d: Driver.Device, cur: Driver.Request?, s: State)
    reads d, cur, if cur == null then null else cur.target
  {
    if cur == null then CurrentOf(s) == None
    else
      && CurrentOf(s) == Some(cur.id)
      && cur.id in s.requests && cur.target.id in s.targets && s.requests[cur.id].target == cur.target.id
      && s.requests[cur.id].pending == 0 && s.requests[cur.id].descriptors == cur.descriptors
      && CoreIn(s, cur.id) == Driver.CoreOf(d, cur)
  }

  /** The current request is the same on both sides. */
  lemma CurrentObject(w: World)
    requires w.Valid() && Inv(w.Abs())
    ensures Runs(w, Driver.CurrentRequest(w.device)) && RunsIn(w.device, Driver.CurrentRequest(w.device), w.Abs())
  {
    var cur := Driver.CurrentRequest(w.device);
    if cur != null {
      var t := w.device.currentTarget;
      assert w.TargetState(t.id) == Some(cur.id);
      CurrentIsWorking(w.Abs(), cur.id);
      assert w.RequestPlaced(cur.id);
    }
  }

  /** Without a current request a callback changes nothing. */
  lemma IdleRefines(w: World, s: State)
    requires w.Valid() && FrameworkAs(w, s, null, 0) && OthersAs(w, s, null)
    requires w.OwnerState() == s.currentTarget && w.device.timerStarted == s.armed
    requires w.device.interruptMask == s.mask && w.device.interruptStatus == s.interruptStatus
    ensures w.Abs() == s
  {
    assert w.TargetStates() == s.targets;
    assert w.RequestStates() == s.requests;
  }

  lemma OneUpdated(w: World, before: map<RequestId, Request>, r: RequestId)
    requires w.requests.Keys == before.Keys && r in before
    requires forall x | x in w.requests && x != r :: w.RequestState(x) == before[x]
    ensures w.RequestStates() == before[r := w.RequestState(r)]
  {
  }

  /** The state, part by part. */
  lemma AbsIs(w: World, s: State)
    requires w.Valid() && w.TargetStates() == s.targets && w.RequestStates() == s.requests
    requires w.OwnerState() == s.currentTarget && w.lockOwner == s.lockOwner && w.queued == s.queued
    requires w.device.timerStarted == s.armed && w.flags == s.flags
    requires w.device.interruptMask == s.mask && w.device.interruptStatus == s.interruptStatus
    ensures w.Abs() == s
  {
  }

  /** A request that is refused leaves no current request on its target. */
  lemma RefusedTargets(w: World, s: State, now: State, q: Driver.Request)
    requires w.Valid() && Presented(s, now, q) && OthersAs(w, now, q) && q.id in w.requests && w.requests[q.id] == q
    requires q.target.currentRequest == null && s.targets[q.target.id] == None
    ensures w.TargetStates() == s.targets
  {
    assert w.RequestPlaced(q.id);
    assert w.TargetState(q.target.id) == None;
  }

  lemma RefusedRequests(w: World, s: State, now: State, q: Driver.Request)
    requires w.Valid() && Presented(s, now, q) && OthersAs(w, now, q) && q.id in w.requests && w.requests[q.id] == q
    ensures w.RequestStates() == s.requests[q.id := w.RequestState(q.id)]
  {
    var after := s.requests[q.id := w.RequestState(q.id)];
    forall x | x in w.requests
      ensures x in after && w.RequestStates()[x] == after[x]
    {
      assert x == q.id || (w.RequestPlaced(x) && w.requests[x] != q);
    }
  }

  /** The request is made current in the state that the dispatch starts from. */
  lemma PresentedAs(w: World, s: State, now: State, q: Driver.Request, ctx: Context)
    requires w.Valid() && q.id in w.requests && w.requests[q.id] == q && OthersAs(w, now, q)
    requires q.id !in s.requests && now.requests.Keys == s.requests.Keys + {q.id} && now.targets == s.targets
    requires q.target.id in s.targets
    requires forall x | x in s.requests :: now.requests[x] == s.requests[x]
    ensures OthersAs(w, Taken(s, q.id, q.target.id, ctx, q.descriptors), q)
  {
  }

  /** What it leaves of one that is refused. */
  ghost predicate RefusedAs(w: World, s: State, q: Driver.Request, ctx: Context, early: bool)
    requires q.id in w.requests
    reads w, w.device, w.requests[q.id], q, q.target
  {
    && w.requests[q.id] == q && q.target.currentRequest == null
    && w.RequestState(q.id) ==
         Request(q.target.id, q.descriptors, ctx, if early then CancelledEarly else NotMarked, [], 0, 1,
                 Some(Report(if TooLong(q.descriptors) then InvalidParameter else Cancelled, 0)))
    && w.Shell() == s.(targets := map[], requests := map[])
  }

  function RefusedContext(kind: RequestKind, position: Position, descriptors: seq<Descriptor>, flag: Bits): Context
    requires |descriptors| > 0
  {
    if TooLong(descriptors) then
      InitialContext(ClearedContext(flag), kind, DispatchPosition(kind, position), |descriptors|)
    else FirstContext(kind, position, descriptors, flag)
  }

  /** The states before and after a request is presented. */
  ghost predicate Presented(s: State, now: State, q: Driver.Request) {
    && q.id !in s.requests && q.target.id in s.targets
    && now == s.(requests := now.requests) && now.requests.Keys == s.requests.Keys + {q.id}
    && forall x | x in s.requests :: now.requests[x] == s.requests[x]
  }

  /** A request that is taken on has made the step of its dispatch. */
  lemma AcceptedRefines(w: World, s: State, now: State, q: Driver.Request, taken: State, c: Core)
    requires w.Valid() && Presented(s, now, q) && OthersAs(w, now, q) && Is(w, q, c)
    requires w.requests[q.id] == q && q.completions == 0 && w.pending[q.id] == More(c)
    requires w.lockOwner == s.lockOwner && w.queued == s.queued && w.flags == s.flags
    requires exists ctx :: taken == Taken(s, q.id, q.target.id, ctx, q.descriptors)
    ensures w.Abs() == Put(taken, q.id, c)
  {
    var ctx :| taken == Taken(s, q.id, q.target.id, ctx, q.descriptors);
    PresentedAs(w, s, now, q, ctx);
    PutRefines(w, taken, q, c);
  }

  /** And so has one that is refused. */
  lemma RefusedRefines(w: World, s: State, now: State, q: Driver.Request, ctx: Context, early: bool)
    requires w.Valid() && Presented(s, now, q) && OthersAs(w, now, q) && s.targets[q.target.id] == None
    requires q.id in w.requests && RefusedAs(w, s, q, ctx, early)
    ensures w.Abs() == Refuse(s, q.id, q.target.id, ctx, q.descriptors, if early then CancelledEarly else NotMarked,
                              if TooLong(q.descriptors) then InvalidParameter else Cancelled)
  {
    var status := if TooLong(q.descriptors) then InvalidParameter else Cancelled;
    var refused := Refuse(s, q.id, q.target.id, ctx, q.descriptors,
                          if early then CancelledEarly else NotMarked, status);
    RefusedTargets(w, s, now, q);
    RefusedRequests(w, s, now, q);
    AbsIs(w, refused);
  }
}
