/** When a cancelled request can report more bytes than its length. */
module SpbOvercount {
  import opened CaseFold
  import opened SpbCore
  import opened SpbInvariant
  import opened SpbRuns
  import opened SpbSafety
  import opened SpbSteps
  import opened SpbProgress
  import opened SpbCancel

  // ---------------------------------------------------------------------
  // Counting a transfer again and again

  /** A cancel callback is due, and the current transfer has bytes left to move. */
  ghost predicate Recounting(s: State, r: RequestId, length: nat, total: nat) {
    && Inv(s) && CurrentOf(s) == Some(r) && r in s.requests && s.requests[r].cancel == Requested
    && s.interruptStatus == {}
    && s.requests[r].ctx.information < s.requests[r].ctx.length == length
    && s.requests[r].ctx.totalInformation >= total
  }

  /** An abort leaves a request that waits for its cancel callback where it was. */
  lemma AbortCounts(c: Core, descriptors: seq<Descriptor>)
    requires |descriptors| == c.ctx.transferCount && c.cancel == Requested && c.ctx.status != Cancelled
    ensures CompleteTransfer(c, descriptors, true, Cause.Interrupt) == Counted(c, true, Cause.Interrupt)
  {
  }

  /** A failed move of everything that is left counts the whole transfer, and the
      request is where it was. */
  lemma RecountCore(c: Core, descriptors: seq<Descriptor>, flags: Flags, stat: Bits)
    requires |descriptors| == c.ctx.transferCount && c.cancel == Requested && c.current
    requires c.ctx.information < c.ctx.length && MovesData(flags, c.ctx.dataReadyFlag, stat)
    ensures
      var all := TransferOutcome(c.ctx.length, false);
      var r := ProcessInterrupts(c, descriptors, flags, stat, all, all);
      && r.current && r.cancel == Requested && r.interruptStatus == c.interruptStatus
      && r.ctx.dataReadyFlag == c.ctx.dataReadyFlag && r.ctx.length == c.ctx.length && r.ctx.information == 0
      && r.ctx.totalInformation == c.ctx.totalInformation + c.ctx.length
  {
    var all := TransferOutcome(c.ctx.length, false);
    AbortCounts(c.(ctx := Moved(c.ctx, all).(status := TransferError)), descriptors);
  }

  /** Whatever flags are pending, a failed move leaves the request where it was. */
  lemma DrainCore(c: Core, descriptors: seq<Descriptor>, flags: Flags, stat: Bits)
    requires |descriptors| == c.ctx.transferCount && c.cancel == Requested && c.current
    requires c.ctx.information < c.ctx.length
    ensures
      var all := TransferOutcome(c.ctx.length, false);
      var r := ProcessInterrupts(c, descriptors, flags, stat, all, all);
      && r.current && r.cancel == Requested && r.interruptStatus == c.interruptStatus
      && r.ctx.dataReadyFlag == c.ctx.dataReadyFlag && r.ctx.length == c.ctx.length && r.ctx.information < r.ctx.length
  {
    var all := TransferOutcome(c.ctx.length, false);
    if MovesData(flags, c.ctx.dataReadyFlag, stat) {
      RecountCore(c, descriptors, flags, stat);
    }
  }

  lemma Drained(s: State, r: RequestId) returns (e: Event)
    requires Inv(s) && CurrentOf(s) == Some(r) && r in s.requests && s.requests[r].cancel == Requested
    requires s.requests[r].ctx.information < s.requests[r].ctx.length
    ensures Enabled(s, e) && Inv(Step(s, e)) && Recounting(Step(s, e), r, s.requests[r].ctx.length, 0)
    ensures Step(s, e).flags == s.flags
    ensures Step(s, e).requests[r].ctx.dataReadyFlag == s.requests[r].ctx.dataReadyFlag
  {
    var all := TransferOutcome(s.requests[r].ctx.length, false);
    e := Dpc(all, all);
    StepKeeps(s, e);
    CurrentMoves(s, e, r);
    DrainCore(CoreIn(s, r).(interruptStatus := {}), s.requests[r].descriptors, s.flags, s.interruptStatus);
    assert Step(s, e).interruptStatus == {};
  }

  lemma RecountOnce(s: State, r: RequestId, length: nat, total: nat, b: nat) returns (es: seq<Event>)
    requires Recounting(s, r, length, total) && MovesData(s.flags, s.requests[r].ctx.dataReadyFlag, {b})
    ensures Legal(s, es) && Recounting(After(s, es), r, length, total + length)
    ensures After(s, es).flags == s.flags
    ensures After(s, es).requests[r].ctx.dataReadyFlag == s.requests[r].ctx.dataReadyFlag
  {
    var all := TransferOutcome(length, false);
    es := [];
    LegalSnoc(s, es, Event.Interrupt({b}));
    es := es + [Event.Interrupt({b})];
    var s1 := After(s, es);
    CurrentMoves(s1, Dpc(all, all), r);
    RecountCore(CoreIn(s1, r).(interruptStatus := {}), s1.requests[r].descriptors, s1.flags, s1.interruptStatus);
    LegalSnoc(s, es, Dpc(all, all));
    es := es + [Dpc(all, all)];
    assert After(s, es).interruptStatus == {};
  }

  lemma {:induction false} RecountRun(s: State, r: RequestId, length: nat, total: nat, b: nat, n: nat)
    returns (es: seq<Event>)
    requires Recounting(s, r, length, total) && MovesData(s.flags, s.requests[r].ctx.dataReadyFlag, {b})
    ensures Legal(s, es) && Recounting(After(s, es), r, length, total + n)
    decreases n
  {
    if n == 0 {
      es := [];
    } else {
      var once := RecountOnce(s, r, length, total, b);
      var more := RecountRun(After(s, once), r, length, total + length, b, n - 1);
      LegalAppend(s, once, more);
      es := once + more;
    }
  }

  lemma CancelDue(s: State, r: RequestId)
    requires Inv(s) && r in s.requests && s.requests[r].cancel == Requested
    ensures Enabled(s, CancelCallback(r)) && SameIdentity(s, Step(s, CancelCallback(r)), r)
    ensures
      var q := Step(s, CancelCallback(r)).requests[r];
      q.pending == 1 && q.ctx.status == Cancelled && q.ctx.totalInformation == Bytes(s.requests[r].ctx)
  {
    CancelFindsRequest(s, r);
    CurrentIsWorking(s, r);
    var c, descriptors := CoreIn(s, r), s.requests[r].descriptors;
    CancelKeeps(c, descriptors);
    EndCounts(c.(cancel := Delivered, armed := false, interruptStatus := {}, ctx := c.ctx.(status := Cancelled)),
              descriptors, true, Cause.Cancel);
  }

  /** The cancel callback, and the completion behind it. */
  lemma CancelReports(s: State, r: RequestId)
    requires Inv(s) && r in s.requests && s.requests[r].cancel == Requested
    ensures
      var es := [CancelCallback(r), Complete(r)];
      && Legal(s, es) && r in After(s, es).requests
      && After(s, es).requests[r].descriptors == s.requests[r].descriptors
      && After(s, es).requests[r].report == Some(Report(Cancelled, Bytes(s.requests[r].ctx)))
  {
    CancelDue(s, r);
    LegalSnoc(s, [], CancelCallback(r));
    assert [] + [CancelCallback(r)] == [CancelCallback(r)];
    LegalSnoc(s, [CancelCallback(r)], Complete(r));
    assert [CancelCallback(r)] + [Complete(r)] == [CancelCallback(r), Complete(r)];
  }

  ghost predicate ReportsOver(s: State, r: RequestId, bound: nat) {
    && r in s.requests && s.requests[r].report.Some?
    && s.requests[r].report.value.status == Cancelled && s.requests[r].report.value.information > bound
  }

  lemma OverFrom(s: State, r: RequestId, bound: nat) returns (es: seq<Event>)
    requires Inv(s) && CurrentOf(s) == Some(r) && r in s.requests && s.requests[r].cancel == Requested
    requires s.requests[r].ctx.information < s.requests[r].ctx.length
    requires CanMove(s.flags, s.requests[r].ctx.dataReadyFlag)
    ensures Legal(s, es) && ReportsOver(After(s, es), r, bound)
  {
    var e := Drained(s, r);
    LegalSnoc(s, [], e);
    es := [] + [e];
    var b := MovesWith(s.flags, s.requests[r].ctx.dataReadyFlag);
    var more := RecountRun(After(s, es), r, s.requests[r].ctx.length, 0, b, bound + 1);
    LegalAppend(s, es, more);
    es := es + more;
    CancelReports(After(s, es), r);
    var last := [CancelCallback(r), Complete(r)];
    LegalAppend(s, es, last);
    es := es + last;
  }

  // ---------------------------------------------------------------------
  // Getting there

  /** Where all bytes have been moved: a failed move of none aborts the transfer. */
  lemma AbortCore(c: Core, descriptors: seq<Descriptor>, flags: Flags, stat: Bits)
    requires |descriptors| == c.ctx.transferCount && c.cancel == Requested && c.current && c.ctx.status != Cancelled
    requires TestAnyBits(stat, c.ctx.dataReadyFlag)
    ensures
      var failed := TransferOutcome(0, false);
      var r := ProcessInterrupts(c, descriptors, flags, stat, failed, failed);
      && r.current && r.cancel == Requested
      && r.ctx.dataReadyFlag == c.ctx.dataReadyFlag && r.ctx.length == c.ctx.length && r.ctx.information == 0
  {
    AbortCounts(c.(ctx := c.ctx.(status := NoSuchDevice, information := 0)), descriptors);
    AbortCounts(c.(ctx := c.ctx.(status := Success)), descriptors);
    AbortCounts(c.(ctx := c.ctx.(status := Unsuccessful, information := 0)), descriptors);
    AbortCounts(c.(ctx := Moved(c.ctx, TransferOutcome(0, false)).(status := TransferError)), descriptors);
  }

  lemma OverAfterMoves(s: State, r: RequestId, bound: nat) returns (es: seq<Event>)
    requires Inv(s) && CurrentOf(s) == Some(r) && r in s.requests && s.requests[r].cancel == Requested
    requires s.requests[r].ctx.length > 0 && s.requests[r].ctx.dataReadyFlag != {}
    requires CanMove(s.flags, s.requests[r].ctx.dataReadyFlag)
    ensures Legal(s, es) && ReportsOver(After(s, es), r, bound)
  {
    var failed, ready := TransferOutcome(0, false), s.requests[r].ctx.dataReadyFlag;
    var b :| b in ready;
    LegalSnoc(s, [], Event.Interrupt({b}));
    es := [] + [Event.Interrupt({b})];
    var s1 := After(s, es);
    CurrentMoves(s1, Dpc(failed, failed), r);
    assert b in s1.interruptStatus * ready;
    AbortCore(CoreIn(s1, r).(interruptStatus := {}), s1.requests[r].descriptors, s1.flags, s1.interruptStatus);
    LegalSnoc(s, es, Dpc(failed, failed));
    es := es + [Dpc(failed, failed)];
    var more := OverFrom(After(s, es), r, bound);
    LegalAppend(s, es, more);
    es := es + more;
  }

  /** From an empty transfer the timer leads to the next stop: one with bytes, or
      an empty one that is still before such a stop. */
  lemma NextStop(c: Core, descriptors: seq<Descriptor>)
    requires Live(c, descriptors) && c.cancel == Requested && !NoRoom(descriptors, c.ctx.transferIndex + 1)
    ensures
      var r := ConfigureForTransfer(c, descriptors);
      && r.current && r.cancel == Requested
      && (r.ctx.length == 0 ==>
            && r.armed && c.ctx.transferIndex < r.ctx.transferIndex < |descriptors|
            && !NoRoom(descriptors, r.ctx.transferIndex + 1))
  {
    var i := c.ctx.transferIndex + 1;
    var k: nat :| i <= k < |descriptors| && IsStop(descriptors, k) && descriptors[k].length != 0;
    var j := NextDelayed(descriptors, i);
    if j < |descriptors| && j != k {
      assert j + 1 <= k;
    }
  }

  /** The timer callback, after the timer has run out if none is due already. */
  lemma TimerRuns(s: State, r: RequestId) returns (es: seq<Event>)
    requires Inv(s) && CurrentOf(s) == Some(r) && (s.armed || s.queued > 0)
    ensures r in s.requests && Known(s, r) && Legal(s, es) && SameIdentity(s, After(s, es), r)
    ensures After(s, es).flags == s.flags
    ensures
      var armed := s.armed && s.queued > 0;
      var c := ConfigureForTransfer(CoreIn(s, r).(armed := armed), s.requests[r].descriptors);
      HasCore(After(s, es), r, c) && After(s, es).armed == c.armed
  {
    CurrentIsWorking(s, r);
    var s1 := s;
    es := [];
    if s.queued == 0 {
      LegalSnoc(s, es, TimerExpires);
      es := es + [TimerExpires];
      s1 := After(s, es);
    }
    CurrentMoves(s1, TimerCallback, r);
    LegalSnoc(s, es, TimerCallback);
    es := es + [TimerCallback];
  }

  lemma {:induction false} OverFromEmpty(s: State, r: RequestId, bound: nat) returns (es: seq<Event>)
    requires Inv(s) && CurrentOf(s) == Some(r) && r in s.requests && s.requests[r].cancel == Requested
    requires !NoRoom(s.requests[r].descriptors, s.requests[r].ctx.transferIndex + 1)
    requires CanMove(s.flags, s.requests[r].ctx.dataReadyFlag) && (s.armed || s.queued > 0)
    ensures Legal(s, es) && ReportsOver(After(s, es), r, bound)
    decreases |s.requests[r].descriptors| - s.requests[r].ctx.transferIndex
  {
    CurrentIsWorking(s, r);
    var descriptors := s.requests[r].descriptors;
    var c := CoreIn(s, r).(armed := s.armed && s.queued > 0);
    LiveAnywhere(CoreIn(s, r), c, descriptors);
    NextStop(c, descriptors);
    StartCounts(c, descriptors);
    es := TimerRuns(s, r);
    var s1 := After(s, es);
    var more;
    if s1.requests[r].ctx.length > 0 {
      more := OverFrom(s1, r, bound);
    } else {
      more := OverFromEmpty(s1, r, bound);
    }
    LegalAppend(s, es, more);
    es := es + more;
  }

  // ---------------------------------------------------------------------
  // Bytes have been moved only where there is a flag for data

  ghost predicate MovedByFlag(s: State, r: RequestId) {
    r in s.requests && CurrentOf(s) == Some(r) && s.requests[r].ctx.information > 0 ==>
      s.requests[r].ctx.dataReadyFlag != {}
  }

  lemma NothingMoved(c: Core, descriptors: seq<Descriptor>, flags: Flags, stat: Bits,
                     first: TransferOutcome, second: TransferOutcome)
    requires |descriptors| == c.ctx.transferCount && c.ctx.information == 0 && c.ctx.dataReadyFlag == {}
    ensures ProcessInterrupts(c, descriptors, flags, stat, first, second).ctx.information == 0
  {
    EndCounts(c.(ctx := c.ctx.(status := NoSuchDevice, information := 0)), descriptors, true, Cause.Interrupt);
    EndCounts(c.(ctx := c.ctx.(status := Success)), descriptors, true, Cause.Interrupt);
    EndCounts(c.(ctx := c.ctx.(status := Unsuccessful, information := 0)), descriptors, true, Cause.Interrupt);
    EndCounts(c, descriptors, false, Cause.Interrupt);
    var moved := c.(ctx := Moved(c.ctx, second));
    EndCounts(moved, descriptors, false, Cause.Interrupt);
    EndCounts(moved.(ctx := moved.ctx.(status := TransferError)), descriptors, true, Cause.Interrupt);
    assert !TestAnyBits(stat, c.ctx.dataReadyFlag);
  }

  lemma CurrentMovedByFlag(s: State, e: Event, r: RequestId)
    requires Inv(s) && Enabled(s, e) && CurrentOf(s) == Some(r) && r in s.requests && MovedByFlag(s, r)
    ensures MovedByFlag(Step(s, e), r)
  {
    ReadyKept(s, e, r);
    CurrentMoves(s, e, r);
    var c, descriptors := CoreIn(s, r), s.requests[r].descriptors;
    match e
    case TimerCallback => StartCounts(c, descriptors);
    case Dpc(first, second) =>
      if s.interruptStatus != {} && c.ctx.dataReadyFlag == {} {
        NothingMoved(c.(interruptStatus := {}), descriptors, s.flags, s.interruptStatus, first, second);
      }
    case CancelCallback(_) =>
      EndCounts(c.(cancel := Delivered, armed := false, interruptStatus := {}, ctx := c.ctx.(status := Cancelled)),
                descriptors, true, Cause.Cancel);
    case _ =>
  }

  lemma DispatchMovedByFlag(s: State, e: Event)
    requires Inv(s) && Enabled(s, e) && e.Dispatch?
    ensures MovedByFlag(Step(s, e), e.r)
  {
    NothingCurrentWhenQuiet(s);
    if !TooLong(e.descriptors) && !e.cancelledEarly {
      var taken := Taken(s, e.r, e.t, FirstContext(e.kind, e.position, e.descriptors, e.dataReadyFlag), e.descriptors);
      StartCounts(CoreIn(taken, e.r), e.descriptors);
    }
  }

  lemma StepMovedByFlag(s: State, e: Event, r: RequestId)
    requires Inv(s) && Enabled(s, e) && MovedByFlag(s, r)
    ensures MovedByFlag(Step(s, e), r)
  {
    if r !in s.requests {
      if e.Dispatch? && e.r == r {
        DispatchMovedByFlag(s, e);
      } else {
        NothingNew(s, e, r);
      }
    } else if CurrentOf(s) == Some(r) {
      CurrentMovedByFlag(s, e, r);
    } else {
      OtherStays(s, e, r);
    }
  }

  lemma {:induction false} RunMovedByFlag(s: State, es: seq<Event>, r: RequestId)
    requires Inv(s) && Legal(s, es) && MovedByFlag(s, r)
    ensures MovedByFlag(After(s, es), r)
    decreases |es|
  {
    if es != [] {
      StepKeeps(s, es[0]);
      StepMovedByFlag(s, es[0], r);
      RunMovedByFlag(Step(s, es[0]), es[1..], r);
    }
  }

  // ---------------------------------------------------------------------
  // Theorems

  /** The request can count bytes again once it is cancelled: some flag moves data
      without being an error, and there is a transfer to move them for. */
  predicate CanRecount(s: State, r: RequestId)
    requires r in s.requests
  {
    var q := s.requests[r];
    && CanMove(s.flags, q.ctx.dataReadyFlag)
    && (q.ctx.length > 0 || !NoRoom(q.descriptors, q.ctx.transferIndex + 1))
  }

  lemma OverFromCancel(s: State, r: RequestId, bound: nat) returns (es: seq<Event>)
    requires Inv(s) && CurrentOf(s) == Some(r) && r in s.requests && s.requests[r].cancel == Requested
    requires (s.armed || s.queued > 0) && MovedByFlag(s, r) && CanRecount(s, r)
    ensures Legal(s, es) && ReportsOver(After(s, es), r, bound)
  {
    CurrentIsWorking(s, r);
    var ctx := s.requests[r].ctx;
    if ctx.information < ctx.length {
      es := OverFrom(s, r, bound);
    } else if ctx.length > 0 {
      es := OverAfterMoves(s, r, bound);
    } else {
      es := OverFromEmpty(s, r, bound);
    }
  }

  /** Then its count can pass every bound. */
  lemma CancelledOver(mask: Bits, flags: Flags, before: seq<Event>, r: RequestId, bound: nat) returns (es: seq<Event>)
    requires Legal(Initial(mask, flags), before) && r in After(Initial(mask, flags), before).requests
    requires After(Initial(mask, flags), before).requests[r].cancel == Cancelable
    requires CanRecount(After(Initial(mask, flags), before), r)
    ensures
      var s := After(Initial(mask, flags), before);
      Legal(s, [CancelRequest(r)] + es) && ReportsOver(After(s, [CancelRequest(r)] + es), r, bound)
  {
    var s := After(Initial(mask, flags), before);
    RunMovedByFlag(Initial(mask, flags), before, r);
    assert RequestOk(s, r);
    CurrentIsWorking(s, r);
    LegalSnoc(s, [], CancelRequest(r));
    assert [] + [CancelRequest(r)] == [CancelRequest(r)];
    es := OverFromCancel(After(s, [CancelRequest(r)]), r, bound);
    LegalAppend(s, [CancelRequest(r)], es);
  }

  /** Whatever follows its cancel, the request reports no more than its length. */
  ghost predicate AlwaysWithin(s: State, r: RequestId)
    requires Inv(s)
  {
    forall es | Legal(s, [CancelRequest(r)] + es) :: ReportsWithin(After(s, [CancelRequest(r)] + es), r)
  }

  /** In every reachable state, a request that is cancelled now reports no more
      than its length, whatever follows, exactly when it cannot count again: every
      flag for data or completion is an error flag too, or its current transfer
      and all at which it will stop are empty. */
  lemma CancelExact(mask: Bits, flags: Flags, before: seq<Event>, r: RequestId)
    requires Legal(Initial(mask, flags), before) && r in After(Initial(mask, flags), before).requests
    requires After(Initial(mask, flags), before).requests[r].cancel == Cancelable
    ensures
      var s := After(Initial(mask, flags), before);
      AlwaysWithin(s, r) <==> !CanRecount(s, r)
  {
    var s := After(Initial(mask, flags), before);
    if CanRecount(s, r) {
      var es := CancelledOver(mask, flags, before, r, TotalLength(s.requests[r].descriptors));
      var run := [CancelRequest(r)] + es;
      RunKeepsDescriptors(s, run, r);
      assert !ReportsWithin(After(s, run), r);
    } else {
      forall es | Legal(s, [CancelRequest(r)] + es)
        ensures ReportsWithin(After(s, [CancelRequest(r)] + es), r)
      {
        CannotRecountWithin(s, r, [CancelRequest(r)] + es, es);
      }
    }
  }

  lemma CannotRecountWithin(s: State, r: RequestId, run: seq<Event>, es: seq<Event>)
    requires Inv(s) && r in s.requests && s.requests[r].cancel == Cancelable && !CanRecount(s, r)
    requires run == [CancelRequest(r)] + es && Legal(s, run)
    ensures ReportsWithin(After(s, run), r)
  {
    var q := s.requests[r];
    if !CanMove(s.flags, q.ctx.dataReadyFlag) {
      ErrorsOnlyWithin(s, r, es);
    } else {
      assert RequestOk(s, r);
      NothingToMoveWithin(s, r, run);
    }
  }

  lemma {:induction false} RunKeepsDescriptors(s: State, es: seq<Event>, r: RequestId)
    requires Inv(s) && Legal(s, es) && r in s.requests
    ensures r in After(s, es).requests && After(s, es).requests[r].descriptors == s.requests[r].descriptors
    decreases |es|
  {
    if es != [] {
      StepKeeps(s, es[0]);
      if CurrentOf(s) == Some(r) {
        CurrentMoves(s, es[0], r);
      } else {
        OtherStays(s, es[0], r);
      }
      RunKeepsDescriptors(Step(s, es[0]), es[1..], r);
    }
  }

  // ---------------------------------------------------------------------
  // A run

  const DONE_FLAG := Flags({}, {}, {}, {0})

  /** Request 1, a read of four bytes, has been cancelled. */
  ghost predicate Counting(s: State, total: nat) {
    && Inv(s) && CurrentOf(s) == Some(1) && 1 in s.requests && s.requests[1].cancel == Requested
    && s.requests[1].descriptors == SLOW && s.requests[1].ctx.length == 4 && s.requests[1].ctx.information == 0
    && s.requests[1].ctx.totalInformation == total && s.requests[1].ctx.dataReadyFlag == {}
    && s.flags == DONE_FLAG && s.interruptStatus == {}
  }

  const ALL_MOVED := TransferOutcome(4, true)

  lemma CountedAll(c: Core, descriptors: seq<Descriptor>, flags: Flags, stat: Bits, all: TransferOutcome)
    returns (once: Core)
    requires c.current && c.cancel == Requested && c.ctx.status != Cancelled
    requires |descriptors| == 1 == c.ctx.transferCount && c.ctx.information <= c.ctx.length == all.bytes && all.ok
    requires TestAnyBits(stat, flags.transferComplete) && !TestAnyBits(stat, flags.addressNack)
    requires !TestAnyBits(stat, flags.dataNack) && !TestAnyBits(stat, flags.genericError)
    requires !TestAnyBits(stat, c.ctx.dataReadyFlag)
    ensures once == ProcessInterrupts(c, descriptors, flags, stat, all, all)
    ensures once.current && once.cancel == Requested && once.ctx.status == c.ctx.status
    ensures once.ctx.transferCount == 1 && once.ctx.information == 0 && once.ctx.length == c.ctx.length
    ensures once.ctx.dataReadyFlag == c.ctx.dataReadyFlag
    ensures once.ctx.totalInformation == c.ctx.totalInformation + c.ctx.length
  {
    once := ProcessInterrupts(c, descriptors, flags, stat, all, all);
    CountedUnsettled(c, descriptors);
    CountedUnsettled(c.(ctx := Moved(c.ctx, all)), descriptors);
  }

  lemma CountedUnsettled(c: Core, descriptors: seq<Descriptor>)
    requires c.cancel == Requested && c.ctx.status != Cancelled && |descriptors| == 1 == c.ctx.transferCount
    ensures
      var counted := Counted(c, false, Cause.Interrupt);
      CompleteTransfer(c, descriptors, false, Cause.Interrupt) ==
        counted.(ctx := counted.ctx.(transferIndex := c.ctx.transferIndex + 1))
  {
  }

  /** One more interrupt that says the transfer is complete. */
  lemma CountedOnceMore(s: State, es: seq<Event>, total: nat)
    requires Inv(s) && Legal(s, es) && Counting(After(s, es), total)
    ensures Legal(s, es + [Event.Interrupt({0})] + [Dpc(ALL_MOVED, ALL_MOVED)])
    ensures Counting(After(s, es + [Event.Interrupt({0})] + [Dpc(ALL_MOVED, ALL_MOVED)]), total + 4)
  {
    LegalSnoc(s, es, Event.Interrupt({0}));
    var now := es + [Event.Interrupt({0})];
    var s1 := After(s, now);
    CurrentMoves(s1, Dpc(ALL_MOVED, ALL_MOVED), 1);
    var once := CountedAll(CoreIn(s1, 1).(interruptStatus := {}), SLOW, DONE_FLAG, {0}, ALL_MOVED);
    assert 0 in {0} * DONE_FLAG.transferComplete;
    LegalSnoc(s, now, Dpc(ALL_MOVED, ALL_MOVED));
  }

  lemma CancelledSlowRead() returns (es: seq<Event>)
    ensures es == [Connect(0)] + [SlowDispatch(1)] + [CancelRequest(1)]
    ensures Legal(Initial({}, DONE_FLAG), es) && Counting(After(Initial({}, DONE_FLAG), es), 0)
  {
    var s0 := Initial({}, DONE_FLAG);
    LegalSnoc(s0, [], Connect(0));
    es := [Connect(0)];
    assert [] + es == es;
    SlowDispatchWaits(After(s0, es), 1, 0);
    LegalSnoc(s0, es, SlowDispatch(1));
    es := es + [SlowDispatch(1)];
    assert Waiting(After(s0, es), 1, 0);
    LegalSnoc(s0, es, CancelRequest(1));
    es := es + [CancelRequest(1)];
  }

  /** A read of four bytes is dispatched and cancelled. The controller says twice
      that the transfer is complete before the cancel callback gets the lock, and
      the request is completed as cancelled with eight bytes. */
  lemma OvercountedRun()
    ensures
      var cancelled := [Connect(0)] + [SlowDispatch(1)] + [CancelRequest(1)];
      var once := cancelled + [Event.Interrupt({0})] + [Dpc(ALL_MOVED, ALL_MOVED)];
      var twice := once + [Event.Interrupt({0})] + [Dpc(ALL_MOVED, ALL_MOVED)];
      var es := twice + [CancelCallback(1), Complete(1)];
      && Legal(Initial({}, DONE_FLAG), es)
      && var s := After(Initial({}, DONE_FLAG), es);
         && 1 in s.requests && s.requests[1].report == Some(Report(Cancelled, 8))
         && TotalLength(s.requests[1].descriptors) == 4
  {
    var s0 := Initial({}, DONE_FLAG);
    var cancelled := CancelledSlowRead();
    CountedOnceMore(s0, cancelled, 0);
    var once := cancelled + [Event.Interrupt({0})] + [Dpc(ALL_MOVED, ALL_MOVED)];
    CountedOnceMore(s0, once, 4);
    var twice := once + [Event.Interrupt({0})] + [Dpc(ALL_MOVED, ALL_MOVED)];
    CancelReports(After(s0, twice), 1);
    LegalAppend(s0, twice, [CancelCallback(1), Complete(1)]);
    assert SLOW[..0] == [];
  }
}
