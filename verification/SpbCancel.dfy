/** What a cancelled request reports: when its count stays within its length. */
module SpbCancel {
  import opened CaseFold
  import opened SpbCore
  import opened SpbInvariant
  import opened SpbRuns
  import opened SpbSafety
  import opened SpbSteps

  /** The deferred interrupt callback moves data or ends a transfer with what is
      left of it. */
  predicate MovesData(flags: Flags, ready: Bits, stat: Bits) {
    && !TestAnyBits(stat, flags.addressNack) && !TestAnyBits(stat, flags.dataNack)
    && !TestAnyBits(stat, flags.genericError)
    && (TestAnyBits(stat, ready) || TestAnyBits(stat, flags.transferComplete))
  }

  /** Some interrupt does: one with a flag for data or completion that is no error. */
  predicate CanMove(flags: Flags, ready: Bits) {
    !(ready + flags.transferComplete <= flags.addressNack + flags.dataNack + flags.genericError)
  }

  lemma MovesOnlyIf(flags: Flags, ready: Bits, stat: Bits)
    requires MovesData(flags, ready, stat)
    ensures CanMove(flags, ready)
  {
    var b :| b in stat && (b in ready || b in flags.transferComplete);
    assert b !in stat * flags.addressNack && b !in stat * flags.dataNack && b !in stat * flags.genericError;
  }

  lemma MovesWith(flags: Flags, ready: Bits) returns (b: nat)
    requires CanMove(flags, ready)
    ensures MovesData(flags, ready, {b})
  {
    b :| b in ready + flags.transferComplete && b !in flags.addressNack + flags.dataNack + flags.genericError;
    assert b in {b} * (ready + flags.transferComplete);
    assert b in {b} * ready || b in {b} * flags.transferComplete;
  }

  // ---------------------------------------------------------------------
  // What one critical section counts

  /** The bytes counted, and those moved but not counted. */
  function Bytes(ctx: Context): nat {
    ctx.totalInformation + ctx.information
  }

  lemma AdvanceCounts(c: Core, descriptors: seq<Descriptor>)
    requires |descriptors| == c.ctx.transferCount && c.ctx.information == 0
    ensures
      var r := Advance(c, descriptors);
      && r.ctx.totalInformation == c.ctx.totalInformation && r.ctx.information == 0
      && |r.trace| >= |c.trace| && r.ctx.dataReadyFlag == c.ctx.dataReadyFlag
  {
  }

  /** The end of a transfer counts what has been moved, once. */
  lemma EndCounts(c: Core, descriptors: seq<Descriptor>, abort: bool, cause: Cause)
    requires |descriptors| == c.ctx.transferCount
    ensures
      var r := CompleteTransfer(c, descriptors, abort, cause);
      && r.ctx.totalInformation == Bytes(c.ctx) && r.ctx.information == 0
      && |r.trace| > |c.trace| && r.ctx.dataReadyFlag == c.ctx.dataReadyFlag
  {
    if !abort {
      AdvanceCounts(Counted(c, abort, cause), descriptors);
    }
  }

  lemma StartCounts(c: Core, descriptors: seq<Descriptor>)
    requires |descriptors| == c.ctx.transferCount
    ensures
      var r := ConfigureForTransfer(c, descriptors);
      && r.ctx.totalInformation == Bytes(c.ctx) && r.ctx.information == 0
      && |r.trace| > |c.trace| && r.ctx.dataReadyFlag == c.ctx.dataReadyFlag
  {
    EndCounts(SetUp(c), descriptors, false, Started);
  }

  /** A section that counts no more than the current transfer has. */
  predicate CountsAtMost(c: Core, r: Core, bytes: nat) {
    && r.ctx.dataReadyFlag == c.ctx.dataReadyFlag
    && if r.trace == c.trace
       then r.ctx.totalInformation == c.ctx.totalInformation && r.ctx.length == c.ctx.length
       else r.ctx.totalInformation <= bytes && r.ctx.information == 0
  }

  lemma EndAtMost(c0: Core, c: Core, descriptors: seq<Descriptor>, abort: bool, bytes: nat)
    requires |descriptors| == c.ctx.transferCount
    requires c.trace == c0.trace && c.ctx.dataReadyFlag == c0.ctx.dataReadyFlag && Bytes(c.ctx) <= bytes
    ensures CountsAtMost(c0, CompleteTransfer(c, descriptors, abort, Cause.Interrupt), bytes)
  {
    EndCounts(c, descriptors, abort, Cause.Interrupt);
  }

  lemma LastDataAtMost(c0: Core, c: Core, descriptors: seq<Descriptor>, second: TransferOutcome, most: nat)
    requires |descriptors| == c.ctx.transferCount && c.ctx.information <= c.ctx.length
    requires c.trace == c0.trace && c.ctx.dataReadyFlag == c0.ctx.dataReadyFlag
    requires c.ctx.totalInformation + c.ctx.length <= most
    ensures CountsAtMost(c0, ProcessEnd(c, descriptors, second), most)
  {
    var moved := c.(ctx := Moved(c.ctx, second));
    EndAtMost(c0, c, descriptors, false, most);
    EndAtMost(c0, moved, descriptors, false, most);
    EndAtMost(c0, moved.(ctx := moved.ctx.(status := TransferError)), descriptors, true, most);
  }

  lemma DataAtMost(c: Core, descriptors: seq<Descriptor>, flags: Flags, stat: Bits,
                   first: TransferOutcome, second: TransferOutcome)
    requires |descriptors| == c.ctx.transferCount && c.ctx.information <= c.ctx.length
    ensures CountsAtMost(c, ProcessData(c, descriptors, flags, stat, first, second),
                         c.ctx.totalInformation + c.ctx.length)
  {
    var most := c.ctx.totalInformation + c.ctx.length;
    var ready := TestAnyBits(stat, c.ctx.dataReadyFlag);
    var c1 := if ready then c.(ctx := Moved(c.ctx, first)) else c;
    if ready && !first.ok {
      EndAtMost(c, c1.(ctx := c1.ctx.(status := TransferError)), descriptors, true, most);
    } else {
      var c2 := if ready && c1.ctx.length == c1.ctx.information
                then c1.(mask := c1.mask - c1.ctx.dataReadyFlag) else c1;
      if TestAnyBits(stat, flags.transferComplete) {
        LastDataAtMost(c, c2, descriptors, second, most);
      }
    }
  }

  /** Any interrupt counts at most the length of the current transfer, and one
      that moves no data at most what has been moved before. */
  lemma InterruptAtMost(c: Core, descriptors: seq<Descriptor>, flags: Flags, stat: Bits,
                        first: TransferOutcome, second: TransferOutcome)
    requires |descriptors| == c.ctx.transferCount && c.ctx.information <= c.ctx.length
    ensures
      var r := ProcessInterrupts(c, descriptors, flags, stat, first, second);
      && CountsAtMost(c, r, c.ctx.totalInformation + c.ctx.length)
      && (!MovesData(flags, c.ctx.dataReadyFlag, stat) ==>
            CountsAtMost(c, r, Bytes(c.ctx)) && Bytes(r.ctx) <= Bytes(c.ctx))
  {
    if TestAnyBits(stat, flags.addressNack) {
      EndAtMost(c, c.(ctx := c.ctx.(status := NoSuchDevice, information := 0)), descriptors, true, Bytes(c.ctx));
    } else if TestAnyBits(stat, flags.dataNack) {
      EndAtMost(c, c.(ctx := c.ctx.(status := Success)), descriptors, true, Bytes(c.ctx));
    } else if TestAnyBits(stat, flags.genericError) {
      EndAtMost(c, c.(ctx := c.ctx.(status := Unsuccessful, information := 0)), descriptors, true, Bytes(c.ctx));
    } else {
      DataAtMost(c, descriptors, flags, stat, first, second);
    }
  }

  // ---------------------------------------------------------------------
  // Cancelled requests that stay within their length

  /** The interrupt callback is about to move data for the request. */
  ghost predicate AboutToMove(s: State, r: RequestId, e: Event)
    requires r in s.requests
  {
    e.Dpc? && CurrentOf(s) == Some(r) && MovesData(s.flags, s.requests[r].ctx.dataReadyFlag, s.interruptStatus)
  }

  /** Once a transfer has ended, no interrupt moves data for the request again. */
  ghost predicate Calm(s: State, es: seq<Event>, r: RequestId, ended: bool)
    requires Inv(s) && Legal(s, es)
    decreases |es|
  {
    es == [] || r !in s.requests ||
    (StepKeeps(s, es[0]);
     var s' := Step(s, es[0]);
     && !(ended && AboutToMove(s, r, es[0]))
     && Calm(s', es[1..], r, ended || (r in s'.requests && s'.requests[r].trace != s.requests[r].trace)))
  }

  /** There is room for what the current transfer may still count. */
  ghost predicate Account(s: State, r: RequestId, ended: bool) {
    && r in s.requests
    && var q := s.requests[r];
       if CurrentOf(s) != Some(r) then q.ctx.totalInformation <= TotalLength(q.descriptors)
       else
         && q.cancel == Requested
         && (if ended then Bytes(q.ctx) else q.ctx.totalInformation + q.ctx.length) <= TotalLength(q.descriptors)
  }

  lemma AccountCore(s: State, s': State, r: RequestId, c: Core, c': Core, ended: bool)
    requires Account(s, r, ended) && HasCore(s, r, c) && HasCore(s', r, c') && SameIdentity(s, s', r)
    requires c.current && c.ctx.information <= c.ctx.length
    requires c'.current ==> c'.cancel == Requested && c'.ctx.information <= c'.ctx.length
    requires if ended then Bytes(c'.ctx) <= Bytes(c.ctx) else CountsAtMost(c, c', c.ctx.totalInformation + c.ctx.length)
    ensures Account(s', r, ended || c'.trace != c.trace)
  {
  }

  lemma AccountStep(s: State, e: Event, r: RequestId, ended: bool)
    requires Inv(s) && Enabled(s, e) && Account(s, r, ended) && !(ended && AboutToMove(s, r, e))
    ensures SameIdentity(s, Step(s, e), r)
    ensures Account(Step(s, e), r, ended || Step(s, e).requests[r].trace != s.requests[r].trace)
  {
    if CurrentOf(s) != Some(r) {
      OtherStays(s, e, r);
    } else {
      CurrentMoves(s, e, r);
      var c, c', descriptors := CoreIn(s, r), CoreStep(s, e, r), s.requests[r].descriptors;
      CoreCounts(s, e, r, ended);
      AccountCore(s, Step(s, e), r, c, c', ended);
    }
  }

  lemma CoreCounts(s: State, e: Event, r: RequestId, ended: bool)
    requires Inv(s) && Enabled(s, e) && CurrentOf(s) == Some(r) && r in s.requests && Known(s, r)
    requires Live(CoreIn(s, r), s.requests[r].descriptors) && s.requests[r].cancel == Requested
    requires !(ended && AboutToMove(s, r, e))
    ensures
      var c, c' := CoreIn(s, r), CoreStep(s, e, r);
      && (c'.current ==> c'.cancel == Requested && c'.ctx.information <= c'.ctx.length)
      && if ended then Bytes(c'.ctx) <= Bytes(c.ctx) else CountsAtMost(c, c', c.ctx.totalInformation + c.ctx.length)
  {
    var c, descriptors := CoreIn(s, r), s.requests[r].descriptors;
    match e
    case TimerCallback =>
      StartCounts(c, descriptors);
      StaysRequested(c, descriptors);
    case Dpc(first, second) =>
      if s.interruptStatus != {} {
        var taken := c.(interruptStatus := {});
        LiveAnywhere(c, taken, descriptors);
        InterruptAtMost(taken, descriptors, s.flags, s.interruptStatus, first, second);
        InterruptKeeps(taken, descriptors, s.flags, s.interruptStatus, first, second);
        InterruptStaysRequested(taken, descriptors, s.flags, s.interruptStatus, first, second);
      }
    case CancelCallback(_) =>
      EndCounts(c.(cancel := Delivered, armed := false, interruptStatus := {}, ctx := c.ctx.(status := Cancelled)),
                descriptors, true, Cause.Cancel);
    case _ =>
  }

  lemma StaysRequested(c: Core, descriptors: seq<Descriptor>)
    requires |descriptors| == c.ctx.transferCount && c.cancel == Requested
    ensures ConfigureForTransfer(c, descriptors).cancel == Requested
  {
  }

  lemma EndStaysRequested(c: Core, descriptors: seq<Descriptor>, abort: bool)
    requires |descriptors| == c.ctx.transferCount && c.cancel == Requested && c.ctx.status != Cancelled
    ensures CompleteTransfer(c, descriptors, abort, Cause.Interrupt).cancel == Requested
  {
  }

  lemma LastDataStaysRequested(c: Core, descriptors: seq<Descriptor>, second: TransferOutcome)
    requires |descriptors| == c.ctx.transferCount && c.cancel == Requested && c.ctx.status != Cancelled
    ensures ProcessEnd(c, descriptors, second).cancel == Requested
  {
    var moved := c.(ctx := Moved(c.ctx, second));
    EndStaysRequested(c, descriptors, false);
    EndStaysRequested(moved, descriptors, false);
    EndStaysRequested(moved.(ctx := moved.ctx.(status := TransferError)), descriptors, true);
  }

  lemma DataStaysRequested(c: Core, descriptors: seq<Descriptor>, flags: Flags, stat: Bits,
                           first: TransferOutcome, second: TransferOutcome)
    requires |descriptors| == c.ctx.transferCount && c.cancel == Requested && c.ctx.status != Cancelled
    ensures ProcessData(c, descriptors, flags, stat, first, second).cancel == Requested
  {
    var ready := TestAnyBits(stat, c.ctx.dataReadyFlag);
    var c1 := if ready then c.(ctx := Moved(c.ctx, first)) else c;
    if ready && !first.ok {
      EndStaysRequested(c1.(ctx := c1.ctx.(status := TransferError)), descriptors, true);
    } else {
      var c2 := if ready && c1.ctx.length == c1.ctx.information
                then c1.(mask := c1.mask - c1.ctx.dataReadyFlag) else c1;
      if TestAnyBits(stat, flags.transferComplete) {
        LastDataStaysRequested(c2, descriptors, second);
      }
    }
  }

  lemma InterruptStaysRequested(c: Core, descriptors: seq<Descriptor>, flags: Flags, stat: Bits,
                                first: TransferOutcome, second: TransferOutcome)
    requires |descriptors| == c.ctx.transferCount && c.cancel == Requested && c.ctx.status != Cancelled
    ensures ProcessInterrupts(c, descriptors, flags, stat, first, second).cancel == Requested
  {
    if TestAnyBits(stat, flags.addressNack) {
      EndStaysRequested(c.(ctx := c.ctx.(status := NoSuchDevice, information := 0)), descriptors, true);
    } else if TestAnyBits(stat, flags.dataNack) {
      EndStaysRequested(c.(ctx := c.ctx.(status := Success)), descriptors, true);
    } else if TestAnyBits(stat, flags.genericError) {
      EndStaysRequested(c.(ctx := c.ctx.(status := Unsuccessful, information := 0)), descriptors, true);
    } else {
      DataStaysRequested(c, descriptors, flags, stat, first, second);
    }
  }

  /** What a calm run starts with, and what it goes on with. */
  lemma CalmFirst(s: State, es: seq<Event>, r: RequestId, ended: bool)
    requires Inv(s) && Legal(s, es) && es != [] && r in s.requests && Calm(s, es, r, ended)
    ensures Enabled(s, es[0]) && Inv(Step(s, es[0])) && Legal(Step(s, es[0]), es[1..])
    ensures !(ended && AboutToMove(s, r, es[0]))
    ensures
      var s' := Step(s, es[0]);
      r in s'.requests ==> Calm(s', es[1..], r, ended || s'.requests[r].trace != s.requests[r].trace)
  {
    StepKeeps(s, es[0]);
  }

  lemma {:induction false} AccountRun(s: State, es: seq<Event>, r: RequestId, ended: bool) returns (now: bool)
    requires Inv(s) && Legal(s, es) && Account(s, r, ended) && Calm(s, es, r, ended)
    ensures Account(After(s, es), r, now)
    decreases |es|
  {
    if es == [] {
      now := ended;
    } else {
      CalmFirst(s, es, r, ended);
      AccountStep(s, es[0], r, ended);
      var s' := Step(s, es[0]);
      now := AccountRun(s', es[1..], r, ended || s'.requests[r].trace != s.requests[r].trace);
    }
  }

  /** A request that has not been cancelled has room for its current transfer. */
  lemma RoomForCurrent(c: Core, descriptors: seq<Descriptor>)
    requires Live(c, descriptors) && OnTrack(c, descriptors)
    ensures c.ctx.totalInformation + c.ctx.length <= TotalLength(descriptors)
  {
    var k := c.ctx.transferIndex;
    SumBounded(c.trace, c.ctx);
    LengthsOfPrefix(c.trace, descriptors, k);
    assert descriptors[..k + 1][..k] == descriptors[..k];
    PrefixLength(descriptors, k + 1);
  }

  /** A cancelled request counts no more than its length, whatever else happens,
      when between its cancel and its cancel callback no interrupt moves data
      after a transfer has ended. */
  lemma CancelledWithin(s: State, r: RequestId, es: seq<Event>)
    requires Inv(s) && r in s.requests && s.requests[r].cancel == Cancelable
    requires Legal(s, [CancelRequest(r)] + es)
    ensures Inv(Step(s, CancelRequest(r))) && Legal(Step(s, CancelRequest(r)), es)
    ensures Calm(Step(s, CancelRequest(r)), es, r, false) ==> ReportsWithin(After(s, [CancelRequest(r)] + es), r)
  {
    var e := CancelRequest(r);
    assert ([e] + es)[1..] == es;
    StepKeeps(s, e);
    var s' := Step(s, e);
    if Calm(s', es, r, false) {
      assert RequestOk(s, r);
      CurrentIsWorking(s, r);
      RoomForCurrent(CoreIn(s, r), s.requests[r].descriptors);
      var now := AccountRun(s', es, r, false);
      AccountReports(After(s', es), r, now);
    }
  }

  /** The count reported is no more than the request's length. */
  ghost predicate ReportsWithin(s: State, r: RequestId) {
    && r in s.requests
    && var q := s.requests[r];
       q.report.Some? ==> q.report.value.information <= TotalLength(q.descriptors)
  }

  lemma AccountReports(s: State, r: RequestId, ended: bool)
    requires Inv(s) && Account(s, r, ended)
    ensures ReportsWithin(s, r)
  {
    assert RequestOk(s, r);
  }

  // ---------------------------------------------------------------------
  // Where no flag moves data without being an error

  lemma ReadyKept(s: State, e: Event, r: RequestId)
    requires Inv(s) && Enabled(s, e) && r in s.requests
    ensures r in Step(s, e).requests && Step(s, e).requests[r].ctx.dataReadyFlag == s.requests[r].ctx.dataReadyFlag
  {
    if CurrentOf(s) != Some(r) {
      OtherStays(s, e, r);
    } else {
      CurrentMoves(s, e, r);
      var c, descriptors := CoreIn(s, r), s.requests[r].descriptors;
      match e
      case TimerCallback => StartCounts(c, descriptors);
      case Dpc(first, second) =>
        if s.interruptStatus != {} {
          InterruptAtMost(c.(interruptStatus := {}), descriptors, s.flags, s.interruptStatus, first, second);
        }
      case CancelCallback(_) =>
        EndCounts(c.(cancel := Delivered, armed := false, interruptStatus := {}, ctx := c.ctx.(status := Cancelled)),
                  descriptors, true, Cause.Cancel);
      case _ =>
    }
  }

  /** Where every flag for data or completion is an error too, all runs are calm. */
  lemma {:induction false} AlwaysCalm(s: State, es: seq<Event>, r: RequestId, ended: bool)
    requires Inv(s) && Legal(s, es) && r in s.requests && !CanMove(s.flags, s.requests[r].ctx.dataReadyFlag)
    ensures Calm(s, es, r, ended)
    decreases |es|
  {
    if es != [] {
      StepKeeps(s, es[0]);
      ReadyKept(s, es[0], r);
      StepKeepsFlags(s, es[0]);
      if AboutToMove(s, r, es[0]) {
        MovesOnlyIf(s.flags, s.requests[r].ctx.dataReadyFlag, s.interruptStatus);
      }
      var s' := Step(s, es[0]);
      AlwaysCalm(s', es[1..], r, ended || s'.requests[r].trace != s.requests[r].trace);
    }
  }

  lemma ErrorsOnlyWithin(s: State, r: RequestId, es: seq<Event>)
    requires Inv(s) && r in s.requests && s.requests[r].cancel == Cancelable
    requires !CanMove(s.flags, s.requests[r].ctx.dataReadyFlag) && Legal(s, [CancelRequest(r)] + es)
    ensures ReportsWithin(After(s, [CancelRequest(r)] + es), r)
  {
    CancelledWithin(s, r, es);
    AlwaysCalm(Step(s, CancelRequest(r)), es, r, false);
  }

  // ---------------------------------------------------------------------
  // Where there is nothing to move

  /** Transfers at which a request waits for an interrupt: those with a delay, and
      the last one. */
  predicate IsStop(descriptors: seq<Descriptor>, k: nat)
    requires k < |descriptors|
  {
    descriptors[k].delayInUs > 0 || k == |descriptors| - 1
  }

  /** From transfer i on the request only stops at empty ones. */
  predicate NoRoom(descriptors: seq<Descriptor>, i: nat) {
    forall k: nat | i <= k < |descriptors| && IsStop(descriptors, k) :: descriptors[k].length == 0
  }

  /** Neither the current transfer nor any stop behind it has bytes to move. */
  predicate Empty(ctx: Context, descriptors: seq<Descriptor>) {
    ctx.length == 0 && ctx.information == 0 && NoRoom(descriptors, ctx.transferIndex + 1)
  }

  lemma ProceedEmpty(c: Core, descriptors: seq<Descriptor>)
    requires c.ctx.transferIndex < |descriptors| == c.ctx.transferCount && NoRoom(descriptors, c.ctx.transferIndex)
    ensures Empty(Proceed(c, descriptors).ctx, descriptors)
  {
    var j := NextDelayed(descriptors, c.ctx.transferIndex);
    var k := if j < |descriptors| then j else |descriptors| - 1;
    assert IsStop(descriptors, k);
  }

  lemma EndEmpty(c: Core, descriptors: seq<Descriptor>, abort: bool, cause: Cause)
    requires |descriptors| == c.ctx.transferCount && c.ctx.length == 0 && NoRoom(descriptors, c.ctx.transferIndex + 1)
    ensures Empty(CompleteTransfer(c, descriptors, abort, cause).ctx, descriptors)
  {
    if abort {
      SettleEmpty(Counted(c, abort, cause), descriptors);
    } else {
      AdvanceEmpty(Counted(c, abort, cause), descriptors);
    }
  }

  lemma SettleEmpty(c: Core, descriptors: seq<Descriptor>)
    requires Empty(c.ctx, descriptors)
    ensures Empty(Settle(c).ctx, descriptors)
  {
  }

  lemma AdvanceEmpty(c: Core, descriptors: seq<Descriptor>)
    requires |descriptors| == c.ctx.transferCount && Empty(c.ctx, descriptors)
    ensures Empty(Advance(c, descriptors).ctx, descriptors)
  {
    var next := c.(ctx := c.ctx.(transferIndex := c.ctx.transferIndex + 1));
    if next.ctx.transferIndex < next.ctx.transferCount {
      ProceedEmpty(next, descriptors);
    } else {
      SettleEmpty(next, descriptors);
    }
  }

  lemma StartEmpty(c: Core, descriptors: seq<Descriptor>)
    requires |descriptors| == c.ctx.transferCount && Empty(c.ctx, descriptors)
    ensures Empty(ConfigureForTransfer(c, descriptors).ctx, descriptors)
  {
    EndEmpty(SetUp(c), descriptors, false, Started);
  }

  lemma DataEmpty(c: Core, descriptors: seq<Descriptor>, flags: Flags, stat: Bits,
                  first: TransferOutcome, second: TransferOutcome)
    requires |descriptors| == c.ctx.transferCount && Empty(c.ctx, descriptors)
    ensures Empty(ProcessData(c, descriptors, flags, stat, first, second).ctx, descriptors)
  {
    assert Moved(c.ctx, first) == c.ctx;
    var c2 := if TestAnyBits(stat, c.ctx.dataReadyFlag) then c.(mask := c.mask - c.ctx.dataReadyFlag) else c;
    EndEmpty(c.(ctx := c.ctx.(status := TransferError)), descriptors, true, Cause.Interrupt);
    EndEmpty(c2, descriptors, false, Cause.Interrupt);
  }

  lemma InterruptEmpty(c: Core, descriptors: seq<Descriptor>, flags: Flags, stat: Bits,
                       first: TransferOutcome, second: TransferOutcome)
    requires |descriptors| == c.ctx.transferCount && Empty(c.ctx, descriptors)
    ensures Empty(ProcessInterrupts(c, descriptors, flags, stat, first, second).ctx, descriptors)
  {
    EndEmpty(c.(ctx := c.ctx.(status := NoSuchDevice, information := 0)), descriptors, true, Cause.Interrupt);
    EndEmpty(c.(ctx := c.ctx.(status := Success)), descriptors, true, Cause.Interrupt);
    EndEmpty(c.(ctx := c.ctx.(status := Unsuccessful, information := 0)), descriptors, true, Cause.Interrupt);
    DataEmpty(c, descriptors, flags, stat, first, second);
  }

  ghost predicate EmptyAccount(s: State, r: RequestId) {
    && r in s.requests
    && var q := s.requests[r];
       && q.ctx.totalInformation <= TotalLength(q.descriptors)
       && (CurrentOf(s) == Some(r) ==> Empty(q.ctx, q.descriptors))
  }

  lemma EmptyStep(s: State, e: Event, r: RequestId)
    requires Inv(s) && Enabled(s, e) && EmptyAccount(s, r)
    ensures EmptyAccount(Step(s, e), r)
  {
    if CurrentOf(s) != Some(r) {
      OtherStays(s, e, r);
    } else {
      CurrentMoves(s, e, r);
      var c, descriptors := CoreIn(s, r), s.requests[r].descriptors;
      match e
      case TimerCallback =>
        StartCounts(c, descriptors);
        StartEmpty(c, descriptors);
      case Dpc(first, second) =>
        if s.interruptStatus != {} {
          var taken := c.(interruptStatus := {});
          InterruptAtMost(taken, descriptors, s.flags, s.interruptStatus, first, second);
          InterruptEmpty(taken, descriptors, s.flags, s.interruptStatus, first, second);
        }
      case CancelCallback(_) =>
        var cancelled := c.(cancel := Delivered, armed := false, interruptStatus := {},
                            ctx := c.ctx.(status := Cancelled));
        EndCounts(cancelled, descriptors, true, Cause.Cancel);
        EndEmpty(cancelled, descriptors, true, Cause.Cancel);
      case _ =>
    }
  }

  lemma {:induction false} EmptyRun(s: State, es: seq<Event>, r: RequestId)
    requires Inv(s) && Legal(s, es) && EmptyAccount(s, r)
    ensures EmptyAccount(After(s, es), r)
    decreases |es|
  {
    if es != [] {
      StepKeeps(s, es[0]);
      EmptyStep(s, es[0], r);
      EmptyRun(Step(s, es[0]), es[1..], r);
    }
  }

  /** With nothing to move the count stays within the length in every run. */
  lemma NothingToMoveWithin(s: State, r: RequestId, es: seq<Event>)
    requires Inv(s) && r in s.requests && s.requests[r].cancel == Cancelable && Legal(s, es)
    requires Empty(s.requests[r].ctx, s.requests[r].descriptors)
    ensures ReportsWithin(After(s, es), r)
  {
    assert RequestOk(s, r);
    CurrentIsWorking(s, r);
    RoomForCurrent(CoreIn(s, r), s.requests[r].descriptors);
    EmptyRun(s, es, r);
    assert RequestOk(After(s, es), r);
  }
}
