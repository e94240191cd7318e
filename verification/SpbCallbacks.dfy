/** What the callbacks of the SkeletonI2C driver do to the device and to the current
    request, read off the states before and after a step of a run. */
module SpbCallbacks {
  import opened CaseFold
  import opened SpbCore
  import opened SpbInvariant
  import opened SpbRuns
  import opened SpbSafety
  import opened SpbSteps
  import opened SpbProgress

  // ---------------------------------------------------------------------
  // The device

  /** The device fields are those of the core. */
  ghost predicate HasDevice(s: State, c: Core) {
    s.armed == c.armed && s.mask == c.mask && s.interruptStatus == c.interruptStatus
  }

  lemma SectionDevice(s: State, e: Event, r: RequestId)
    requires Inv(s) && Enabled(s, e) && CurrentOf(s) == Some(r)
    requires e.TimerCallback? || e.CancelCallback? || (e.Dpc? && s.interruptStatus != {})
    ensures r in s.requests && Known(s, r) && HasDevice(Step(s, e), CoreStep(s, e, r))
  {
    CurrentIsWorking(s, r);
    if e.CancelCallback? {
      CancelFindsRequest(s, e.r);
    }
  }

  /** A cancel callback stops the delay timer, drops the interrupts seen so far,
      masks all of them, and leaves no request current. */
  lemma CancelStops(s: State, r: RequestId)
    requires Inv(s) && Enabled(s, CancelCallback(r))
    ensures
      var s' := Step(s, CancelCallback(r));
      !s'.armed && s'.interruptStatus == {} && s'.mask == {} && CurrentOf(s') == None && s'.queued == s.queued
  {
    CancelFindsRequest(s, r);
    SectionDevice(s, CancelCallback(r), r);
    CurrentMoves(s, CancelCallback(r), r);
    CancelKeeps(CoreIn(s, r), s.requests[r].descriptors);
  }

  /** So it does in every run. */
  lemma CancelStopsTimer(mask: Bits, flags: Flags, es: seq<Event>, r: RequestId)
    requires Legal(Initial(mask, flags), es + [CancelCallback(r)])
    ensures
      var s := After(Initial(mask, flags), es + [CancelCallback(r)]);
      !s.armed && s.interruptStatus == {} && s.mask == {} && CurrentOf(s) == None
  {
    LegalPrefix(Initial(mask, flags), es, CancelCallback(r));
    LegalSnoc(Initial(mask, flags), es, CancelCallback(r));
    CancelStops(After(Initial(mask, flags), es), r);
  }

  /** A section that lets go of its request masks all interrupts, and one that
      configures or ends a transfer leaves none pending. */
  lemma EndMasks(s: State, e: Event, r: RequestId)
    requires Inv(s) && Enabled(s, e) && CurrentOf(s) == Some(r)
    ensures r in s.requests && r in Step(s, e).requests
    ensures CurrentOf(Step(s, e)) != Some(r) ==> Step(s, e).mask == {}
    ensures Step(s, e).requests[r].trace != s.requests[r].trace ==> Step(s, e).interruptStatus == {}
  {
    CurrentMoves(s, e, r);
    var c, descriptors := CoreIn(s, r), s.requests[r].descriptors;
    match e
    case TimerCallback =>
      SectionDevice(s, e, r);
      AdvanceMasks(Counted(SetUp(c), false, Started), descriptors);
    case CancelCallback(_) => SectionDevice(s, e, r);
    case Dpc(first, second) =>
      if s.interruptStatus != {} {
        SectionDevice(s, e, r);
        InterruptMasks(c.(interruptStatus := {}), descriptors, s.flags, s.interruptStatus, first, second);
      }
    case _ =>
  }

  lemma AdvanceMasks(c: Core, descriptors: seq<Descriptor>)
    requires |descriptors| == c.ctx.transferCount && c.current && c.interruptStatus == {}
    ensures
      var r := Advance(c, descriptors);
      (!r.current ==> r.mask == {}) && r.interruptStatus == {}
  {
  }

  lemma CompleteMasks(c: Core, descriptors: seq<Descriptor>, abort: bool)
    requires |descriptors| == c.ctx.transferCount && c.current && c.interruptStatus == {}
    ensures
      var r := CompleteTransfer(c, descriptors, abort, Cause.Interrupt);
      (!r.current ==> r.mask == {}) && r.interruptStatus == {}
  {
    if !abort {
      AdvanceMasks(Counted(c, abort, Cause.Interrupt), descriptors);
    }
  }

  lemma EndDataMasks(c: Core, descriptors: seq<Descriptor>, second: TransferOutcome)
    requires |descriptors| == c.ctx.transferCount && c.current && c.interruptStatus == {}
    ensures
      var r := ProcessEnd(c, descriptors, second);
      (!r.current ==> r.mask == {}) && r.interruptStatus == {}
  {
    var moved := c.(ctx := Moved(c.ctx, second));
    CompleteMasks(c, descriptors, false);
    CompleteMasks(moved, descriptors, false);
    CompleteMasks(moved.(ctx := moved.ctx.(status := TransferError)), descriptors, true);
  }

  lemma DataMasks(c: Core, descriptors: seq<Descriptor>, flags: Flags, stat: Bits,
                  first: TransferOutcome, second: TransferOutcome)
    requires |descriptors| == c.ctx.transferCount && c.current && c.interruptStatus == {}
    ensures
      var r := ProcessData(c, descriptors, flags, stat, first, second);
      (!r.current ==> r.mask == {}) && r.interruptStatus == {}
  {
    var ready := TestAnyBits(stat, c.ctx.dataReadyFlag);
    var c1 := if ready then c.(ctx := Moved(c.ctx, first)) else c;
    if ready && !first.ok {
      CompleteMasks(c1.(ctx := c1.ctx.(status := TransferError)), descriptors, true);
    } else {
      var c2 := if ready && c1.ctx.length == c1.ctx.information
                then c1.(mask := c1.mask - c1.ctx.dataReadyFlag) else c1;
      EndDataMasks(c2, descriptors, second);
    }
  }

  lemma InterruptMasks(c: Core, descriptors: seq<Descriptor>, flags: Flags, stat: Bits,
                       first: TransferOutcome, second: TransferOutcome)
    requires |descriptors| == c.ctx.transferCount && c.current && c.interruptStatus == {}
    ensures
      var r := ProcessInterrupts(c, descriptors, flags, stat, first, second);
      (!r.current ==> r.mask == {}) && r.interruptStatus == {}
  {
    if TestAnyBits(stat, flags.addressNack) {
      CompleteMasks(c.(ctx := c.ctx.(status := NoSuchDevice, information := 0)), descriptors, true);
    } else if TestAnyBits(stat, flags.dataNack) {
      CompleteMasks(c.(ctx := c.ctx.(status := Success)), descriptors, true);
    } else if TestAnyBits(stat, flags.genericError) {
      CompleteMasks(c.(ctx := c.ctx.(status := Unsuccessful, information := 0)), descriptors, true);
    } else {
      DataMasks(c, descriptors, flags, stat, first, second);
    }
  }

  /** Interrupts add up until they are processed: no flag is lost, and none made up. */
  lemma {:induction false} InterruptsAddUp(s: State, es: seq<Event>, b: nat)
    requires Inv(s) && Legal(s, es) && forall e | e in es :: e.Interrupt?
    ensures b in After(s, es).interruptStatus <==> b in s.interruptStatus || exists e | e in es :: b in e.stat
    decreases |es|
  {
    if es != [] {
      StepKeeps(s, es[0]);
      InterruptsAddUp(Step(s, es[0]), es[1..], b);
      assert forall e | e in es :: e == es[0] || e in es[1..];
      assert es[0] in es && forall e | e in es[1..] :: e in es;
    }
  }

  /** Callbacks that find no request, or an interrupt callback that finds no flag,
      leave everything as it is. */
  lemma NothingToDo(s: State, first: TransferOutcome, second: TransferOutcome)
    requires Inv(s)
    ensures CurrentOf(s) == None || s.interruptStatus == {} ==> Step(s, Dpc(first, second)) == s
    ensures CurrentOf(s) == None && s.queued > 0 ==> Step(s, TimerCallback) == s.(queued := s.queued - 1)
  {
    if CurrentOf(s).Some? {
      CurrentIsWorking(s, CurrentOf(s).value);
    }
  }

  // ---------------------------------------------------------------------
  // The deferred interrupt callback, flag by flag

  /** The bytes of a transfer after some more have been offered to it. */
  function Capped(information: nat, more: nat, length: nat): nat {
    if information + more < length then information + more else length
  }

  /** The request has been aborted with the status, the bytes of its last transfer
      are in its count, and its completion is due. */
  ghost predicate Aborted(s: State, s': State, r: RequestId, status: Status, bytes: nat)
    requires r in s.requests
  {
    && r in s'.requests && CurrentOf(s') != Some(r)
    && var q, q' := s.requests[r], s'.requests[r];
       && q'.pending == 1 && q'.ctx.status == status
       && q'.trace == q.trace + [Finished(q.ctx.transferIndex, bytes, q.ctx.length, true, Cause.Interrupt)]
       && q'.ctx.totalInformation == q.ctx.totalInformation + bytes
  }

  /** Its transfer has ended in order, with these bytes. */
  ghost predicate EndedWith(s: State, s': State, r: RequestId, bytes: nat)
    requires r in s.requests
  {
    && r in s'.requests
    && var q, q' := s.requests[r], s'.requests[r];
       var n := |q.trace|;
       && n < |q'.trace| && q'.trace[..n] == q.trace
       && q'.trace[n] == Finished(q.ctx.transferIndex, bytes, q.ctx.length, false, Cause.Interrupt)
       && q'.ctx.totalInformation == q.ctx.totalInformation + bytes
       && (CurrentOf(s') != Some(r) ==> q'.pending == 1)
       && (CurrentOf(s') != Some(r) && q.ctx.status == Success ==> q'.ctx.status == Success)
  }

  /** Its transfer goes on, with these bytes moved. */
  ghost predicate GoesOn(s: State, s': State, r: RequestId, information: nat)
    requires r in s.requests
  {
    && r in s'.requests && CurrentOf(s') == Some(r)
    && s'.requests[r] == s.requests[r].(ctx := s.requests[r].ctx.(information := information))
  }

  /** A request that can still be cancelled is current, and interrupts are pending. */
  ghost predicate Interrupted(s: State, r: RequestId) {
    && Inv(s) && CurrentOf(s) == Some(r) && r in s.requests && s.requests[r].cancel == Cancelable
    && s.interruptStatus != {}
  }

  /** The request as a section works on it: with this mask, this status and these bytes. */
  function Worked(s: State, r: RequestId, mask: Bits, status: Status, information: nat): Core
    requires r in s.requests && Known(s, r)
  {
    var c := CoreIn(s, r);
    c.(interruptStatus := {}, mask := mask, ctx := c.ctx.(status := status, information := information))
  }

  lemma AbortedIn(s: State, e: Event, r: RequestId, mask: Bits, status: Status, bytes: nat)
    requires Interrupted(s, r) && Known(s, r) && e.Dpc? && status != Cancelled
    requires CoreStep(s, e, r) ==
             CompleteTransfer(Worked(s, r, mask, status, bytes), s.requests[r].descriptors, true, Cause.Interrupt)
    ensures Aborted(s, Step(s, e), r, status, bytes)
  {
    CurrentIsWorking(s, r);
    CurrentMoves(s, e, r);
    CompletionDue(s, e, r);
  }

  lemma CompletionDue(s: State, e: Event, r: RequestId)
    requires Inv(s) && Enabled(s, e) && CurrentOf(s) == Some(r) && CurrentOf(Step(s, e)) != Some(r)
    ensures r in Step(s, e).requests && Step(s, e).requests[r].pending == 1
  {
    CurrentIsWorking(s, r);
    CurrentMoves(s, e, r);
    StepKeeps(s, e);
    assert RequestOk(Step(s, e), r);
    NotReported(s, e, r);
  }

  lemma NotReported(s: State, e: Event, r: RequestId)
    requires Inv(s) && Enabled(s, e) && CurrentOf(s) == Some(r)
    ensures r in Step(s, e).requests && Step(s, e).requests[r].completions == 0
  {
    CurrentIsWorking(s, r);
    CurrentMoves(s, e, r);
    if e.CancelCallback? {
      CancelFindsRequest(s, e.r);
    }
  }

  /** The errors: which flag gives which status, and which of them keeps the bytes
      moved so far. */
  lemma ErrorStatus(s: State, r: RequestId, first: TransferOutcome, second: TransferOutcome)
    requires Interrupted(s, r)
    ensures
      var flags, stat, s' := s.flags, s.interruptStatus, Step(s, Dpc(first, second));
      && (stat * flags.addressNack != {} ==> Aborted(s, s', r, NoSuchDevice, 0))
      && (stat * flags.addressNack == {} && stat * flags.dataNack != {} ==>
            Aborted(s, s', r, Success, s.requests[r].ctx.information))
      && (stat * (flags.addressNack + flags.dataNack) == {} && stat * flags.genericError != {} ==>
            Aborted(s, s', r, Unsuccessful, 0))
  {
    CurrentIsWorking(s, r);
    assert s.interruptStatus * (s.flags.addressNack + s.flags.dataNack) ==
           s.interruptStatus * s.flags.addressNack + s.interruptStatus * s.flags.dataNack;
    var e := Dpc(first, second);
    if s.interruptStatus * s.flags.addressNack != {} {
      AbortedIn(s, e, r, s.mask, NoSuchDevice, 0);
    } else if s.interruptStatus * s.flags.dataNack != {} {
      AbortedIn(s, e, r, s.mask, Success, s.requests[r].ctx.information);
    } else if s.interruptStatus * s.flags.genericError != {} {
      AbortedIn(s, e, r, s.mask, Unsuccessful, 0);
    }
  }

  /** No error flag is pending. */
  ghost predicate NoError(s: State) {
    s.interruptStatus * (s.flags.addressNack + s.flags.dataNack + s.flags.genericError) == {}
  }

  /** A move of data that fails aborts the transfer with what was moved. */
  lemma MoveFails(s: State, r: RequestId, first: TransferOutcome, second: TransferOutcome)
    requires Interrupted(s, r) && NoError(s) && s.interruptStatus * s.requests[r].ctx.dataReadyFlag != {} && !first.ok
    ensures
      var q, s' := s.requests[r], Step(s, Dpc(first, second));
      Aborted(s, s', r, TransferError, Capped(q.ctx.information, first.bytes, q.ctx.length))
  {
    CurrentIsWorking(s, r);
    NoErrorFlags(s);
    var ctx := s.requests[r].ctx;
    AbortedIn(s, Dpc(first, second), r, s.mask, TransferError, Capped(ctx.information, first.bytes, ctx.length));
  }

  lemma GoesOnIn(s: State, e: Event, r: RequestId, mask: Bits, information: nat)
    requires Interrupted(s, r) && Known(s, r) && e.Dpc?
    requires CoreStep(s, e, r) == Worked(s, r, mask, s.requests[r].ctx.status, information)
    ensures GoesOn(s, Step(s, e), r, information) && Step(s, e).mask == mask && Step(s, e).interruptStatus == {}
  {
    CurrentIsWorking(s, r);
    SectionDevice(s, e, r);
    CurrentMoves(s, e, r);
  }

  /** Without errors: data that is ready is moved, as much as fits; once all has
      been moved, data interrupts are masked. Without any flag nothing happens. */
  lemma DataMoves(s: State, r: RequestId, first: TransferOutcome, second: TransferOutcome)
    requires Interrupted(s, r) && NoError(s) && s.interruptStatus * s.flags.transferComplete == {}
    ensures
      var q, s' := s.requests[r], Step(s, Dpc(first, second));
      var moved := Capped(q.ctx.information, first.bytes, q.ctx.length);
      if s.interruptStatus * q.ctx.dataReadyFlag == {} then
        GoesOn(s, s', r, q.ctx.information) && s'.mask == s.mask && s'.interruptStatus == {}
      else
        first.ok ==>
          && GoesOn(s, s', r, moved) && s'.interruptStatus == {}
          && s'.mask == if moved == q.ctx.length then s.mask - q.ctx.dataReadyFlag else s.mask
  {
    CurrentIsWorking(s, r);
    var ctx := s.requests[r].ctx;
    var ready := s.interruptStatus * ctx.dataReadyFlag != {};
    var moved := if ready then Capped(ctx.information, first.bytes, ctx.length) else ctx.information;
    var mask := if ready && moved == ctx.length then s.mask - ctx.dataReadyFlag else s.mask;
    if ready ==> first.ok {
      DataReached(s, r, first, second, mask, moved);
      GoesOnIn(s, Dpc(first, second), r, mask, moved);
    }
  }

  lemma NoErrorFlags(s: State)
    requires NoError(s)
    ensures !TestAnyBits(s.interruptStatus, s.flags.addressNack) && !TestAnyBits(s.interruptStatus, s.flags.dataNack)
    ensures !TestAnyBits(s.interruptStatus, s.flags.genericError)
  {
  }

  /** A transfer that is complete gets the data that is left, and ends with what it
      has then; a move that fails aborts it. */
  lemma TransferEnds(s: State, r: RequestId, first: TransferOutcome, second: TransferOutcome)
    requires Interrupted(s, r) && NoError(s) && s.interruptStatus * s.flags.transferComplete != {}
    requires s.interruptStatus * s.requests[r].ctx.dataReadyFlag != {} ==> first.ok
    ensures
      var q, s' := s.requests[r], Step(s, Dpc(first, second));
      var moved := if s.interruptStatus * q.ctx.dataReadyFlag != {}
                   then Capped(q.ctx.information, first.bytes, q.ctx.length) else q.ctx.information;
      var all := if moved == q.ctx.length then moved else Capped(moved, second.bytes, q.ctx.length);
      if moved == q.ctx.length || second.ok then EndedWith(s, s', r, all) else Aborted(s, s', r, TransferError, all)
  {
    CurrentIsWorking(s, r);
    var e, ctx := Dpc(first, second), s.requests[r].ctx;
    var ready := s.interruptStatus * ctx.dataReadyFlag != {};
    var moved := if ready then Capped(ctx.information, first.bytes, ctx.length) else ctx.information;
    var mask := if ready && moved == ctx.length then s.mask - ctx.dataReadyFlag else s.mask;
    DataReached(s, r, first, second, mask, moved);
    WorkedEnd(s, r, mask, moved, second);
    if moved == ctx.length {
      EndedIn(s, e, r, mask, moved);
    } else if second.ok {
      EndedIn(s, e, r, mask, Capped(moved, second.bytes, ctx.length));
    } else {
      AbortedIn(s, e, r, mask, TransferError, Capped(moved, second.bytes, ctx.length));
    }
  }

  lemma DataReached(s: State, r: RequestId, first: TransferOutcome, second: TransferOutcome, mask: Bits, moved: nat)
    requires Interrupted(s, r) && NoError(s) && Known(s, r)
    requires s.interruptStatus * s.requests[r].ctx.dataReadyFlag != {} ==> first.ok
    requires
      var ready, ctx := s.interruptStatus * s.requests[r].ctx.dataReadyFlag != {}, s.requests[r].ctx;
      && moved == (if ready then Capped(ctx.information, first.bytes, ctx.length) else ctx.information)
      && mask == (if ready && moved == ctx.length then s.mask - ctx.dataReadyFlag else s.mask)
    ensures
      var c := Worked(s, r, mask, s.requests[r].ctx.status, moved);
      CoreStep(s, Dpc(first, second), r) ==
        if s.interruptStatus * s.flags.transferComplete == {} then c
        else ProcessEnd(c, s.requests[r].descriptors, second)
  {
    CurrentIsWorking(s, r);
    NoErrorFlags(s);
    var c := CoreIn(s, r).(interruptStatus := {});
    DataMoved(c, s.requests[r].descriptors, s.flags, s.interruptStatus, first, second, mask, moved);
    assert c.(mask := mask, ctx := c.ctx.(information := moved)) == Worked(s, r, mask, c.ctx.status, moved);
  }

  lemma DataMoved(c: Core, descriptors: seq<Descriptor>, flags: Flags, stat: Bits,
                 first: TransferOutcome, second: TransferOutcome, mask: Bits, moved: nat)
    requires |descriptors| == c.ctx.transferCount && c.ctx.information <= c.ctx.length
    requires TestAnyBits(stat, c.ctx.dataReadyFlag) ==> first.ok
    requires moved == if TestAnyBits(stat, c.ctx.dataReadyFlag) then
                        Capped(c.ctx.information, first.bytes, c.ctx.length) else c.ctx.information
    requires mask == if TestAnyBits(stat, c.ctx.dataReadyFlag) && moved == c.ctx.length then
                       c.mask - c.ctx.dataReadyFlag else c.mask
    ensures
      var c' := c.(mask := mask, ctx := c.ctx.(information := moved));
      ProcessData(c, descriptors, flags, stat, first, second) ==
        if TestAnyBits(stat, flags.transferComplete) then ProcessEnd(c', descriptors, second) else c'
  {
    var c' := c.(mask := mask, ctx := c.ctx.(information := moved));
    if TestAnyBits(stat, c.ctx.dataReadyFlag) {
      assert Moved(c.ctx, first) == c'.ctx;
      assert c'.ctx.dataReadyFlag == c.ctx.dataReadyFlag;
    } else {
      assert c' == c;
    }
  }

  lemma WorkedEnd(s: State, r: RequestId, mask: Bits, moved: nat, second: TransferOutcome)
    requires r in s.requests && Known(s, r) && moved <= s.requests[r].ctx.length
    ensures
      var ctx, descriptors := s.requests[r].ctx, s.requests[r].descriptors;
      var all := Capped(moved, second.bytes, ctx.length);
      ProcessEnd(Worked(s, r, mask, ctx.status, moved), descriptors, second) ==
        if moved == ctx.length then
          CompleteTransfer(Worked(s, r, mask, ctx.status, moved), descriptors, false, Cause.Interrupt)
        else if second.ok then
          CompleteTransfer(Worked(s, r, mask, ctx.status, all), descriptors, false, Cause.Interrupt)
        else
          CompleteTransfer(Worked(s, r, mask, TransferError, all), descriptors, true, Cause.Interrupt)
  {
  }

  lemma EndedIn(s: State, e: Event, r: RequestId, mask: Bits, bytes: nat)
    requires Interrupted(s, r) && Known(s, r) && e.Dpc?
    requires CoreStep(s, e, r) ==
             CompleteTransfer(Worked(s, r, mask, s.requests[r].ctx.status, bytes), s.requests[r].descriptors, false,
                              Cause.Interrupt)
    ensures EndedWith(s, Step(s, e), r, bytes)
  {
    CurrentIsWorking(s, r);
    CurrentMoves(s, e, r);
    AdvanceContinues(Counted(Worked(s, r, mask, s.requests[r].ctx.status, bytes), false, Cause.Interrupt),
                     s.requests[r].descriptors);
    if CurrentOf(Step(s, e)) != Some(r) {
      CompletionDue(s, e, r);
    }
  }

  lemma AdvanceContinues(c: Core, descriptors: seq<Descriptor>)
    requires |descriptors| == c.ctx.transferCount && c.ctx.status != Cancelled && c.cancel == Cancelable
    ensures
      var r := Advance(c, descriptors);
      && |c.trace| <= |r.trace| && r.trace[..|c.trace|] == c.trace
      && r.ctx.totalInformation == c.ctx.totalInformation
      && (c.ctx.status == Success ==> r.ctx.status == Success)
  {
  }

  // ---------------------------------------------------------------------
  // From the flags to the report

  /** It is over for the request: it will be reported with this status and count. */
  ghost predicate OverWith(s: State, r: RequestId, report: Report) {
    && r in s.requests && CurrentOf(s) != Some(r) && TakenOn(s.requests[r])
    && s.requests[r].ctx.status == report.status && s.requests[r].ctx.totalInformation == report.information
  }

  lemma {:induction false} StaysOver(s: State, es: seq<Event>, r: RequestId, report: Report)
    requires Inv(s) && Legal(s, es) && OverWith(s, r, report)
    ensures OverWith(After(s, es), r, report)
    decreases |es|
  {
    if es != [] {
      StepKeeps(s, es[0]);
      OtherStays(s, es[0], r);
      StaysOver(Step(s, es[0]), es[1..], r, report);
    }
  }

  /** Whenever the request is completed, it is with this report. */
  ghost predicate WillReport(s: State, r: RequestId, report: Report)
    requires Inv(s)
  {
    forall es | Legal(s, es) ::
      && r in After(s, es).requests
      && (After(s, es).requests[r].report.Some? ==> After(s, es).requests[r].report.value == report)
  }

  lemma OverReports(s: State, r: RequestId, report: Report)
    requires Inv(s) && OverWith(s, r, report)
    ensures WillReport(s, r, report)
  {
    forall es | Legal(s, es)
      ensures r in After(s, es).requests
      ensures After(s, es).requests[r].report.Some? ==> After(s, es).requests[r].report.value == report
    {
      StaysOver(s, es, r, report);
      assert RequestOk(After(s, es), r);
    }
  }

  lemma AbortReported(s: State, e: Event, r: RequestId, status: Status, bytes: nat)
    requires Inv(s) && Enabled(s, e) && CurrentOf(s) == Some(r) && r in s.requests
    requires Aborted(s, Step(s, e), r, status, bytes)
    ensures Inv(Step(s, e)) && WillReport(Step(s, e), r, Report(status, s.requests[r].ctx.totalInformation + bytes))
  {
    StepKeeps(s, e);
    assert RequestOk(Step(s, e), r);
    OverReports(Step(s, e), r, Report(status, s.requests[r].ctx.totalInformation + bytes));
  }

  /** An address NACK, a data NACK or a generic error that comes for a request
      completes it with its own status, and only the data NACK leaves the bytes of
      the transfer in the count. */
  lemma ErrorReported(s: State, r: RequestId, first: TransferOutcome, second: TransferOutcome)
    requires Interrupted(s, r)
    ensures Inv(Step(s, Dpc(first, second)))
    ensures
      var flags, stat, q, s' := s.flags, s.interruptStatus, s.requests[r], Step(s, Dpc(first, second));
      && (stat * flags.addressNack != {} ==> WillReport(s', r, Report(NoSuchDevice, q.ctx.totalInformation)))
      && (stat * flags.addressNack == {} && stat * flags.dataNack != {} ==>
            WillReport(s', r, Report(Success, q.ctx.totalInformation + q.ctx.information)))
      && (stat * (flags.addressNack + flags.dataNack) == {} && stat * flags.genericError != {} ==>
            WillReport(s', r, Report(Unsuccessful, q.ctx.totalInformation)))
  {
    StepKeeps(s, Dpc(first, second));
    ErrorStatus(s, r, first, second);
    var flags, stat, e := s.flags, s.interruptStatus, Dpc(first, second);
    if stat * flags.addressNack != {} {
      AbortReported(s, e, r, NoSuchDevice, 0);
    } else if stat * flags.dataNack != {} {
      AbortReported(s, e, r, Success, s.requests[r].ctx.information);
    }
    if stat * (flags.addressNack + flags.dataNack) == {} && stat * flags.genericError != {} {
      AbortReported(s, e, r, Unsuccessful, 0);
    }
  }

  // ---------------------------------------------------------------------
  // The settings of the transfers

  /** The request is the one that was dispatched. */
  ghost predicate AsDispatched(s: State, e: Event)
    requires e.Dispatch?
  {
    && e.r in s.requests && TakenOn(s.requests[e.r])
    && var q := s.requests[e.r];
       && q.descriptors == e.descriptors && q.ctx.kind == e.kind
       && (e.kind != Sequence ==> q.ctx.position == e.position)
  }

  lemma AcceptedAsDispatched(s: State, e: Event)
    requires Inv(s) && Enabled(s, e) && e.Dispatch? && !e.cancelledEarly && !TooLong(e.descriptors)
    ensures AsDispatched(Step(s, e), e)
  {
    TakenOk(s, e.r, e.t, e.kind, e.position, e.descriptors, e.dataReadyFlag);
    var taken := Taken(s, e.r, e.t, FirstContext(e.kind, e.position, e.descriptors, e.dataReadyFlag), e.descriptors);
    StartKeeps(CoreIn(taken, e.r), e.descriptors);
    PutHasCore(taken, e.r, DoTransfer(CoreIn(taken, e.r), e.descriptors));
  }

  lemma StaysAsDispatched(s: State, x: Event, e: Event)
    requires Inv(s) && Enabled(s, x) && e.Dispatch? && AsDispatched(s, e)
    ensures AsDispatched(Step(s, x), e)
  {
    if CurrentOf(s) == Some(e.r) {
      CurrentMoves(s, x, e.r);
      CoreKept(s, x, e.r);
    } else {
      OtherStays(s, x, e.r);
    }
  }

  lemma {:induction false} RunAsDispatched(s: State, es: seq<Event>, e: Event)
    requires Inv(s) && Legal(s, es) && e.Dispatch? && AsDispatched(s, e)
    ensures AsDispatched(After(s, es), e)
    decreases |es|
  {
    if es != [] {
      StepKeeps(s, es[0]);
      StaysAsDispatched(s, es[0], e);
      RunAsDispatched(Step(s, es[0]), es[1..], e);
    }
  }

  /** The start condition is for a first or only transfer, the stop condition for a
      last or only one, and the bus has to be free for a start and is held otherwise. */
  predicate AskedFor(x: Entry, kind: RequestKind, position: Position, count: nat)
    requires x.Configured?
  {
    && (x.settings.isStart <==> if kind == Sequence then x.index == 0 else position == Single || position == First)
    && (x.settings.isEnd <==> if kind == Sequence then x.index == count - 1 else position == Single || position == Last)
    && x.settings.busCondition == if x.settings.isStart then Free else Busy
  }

  lemma SettingsFit(x: Entry, ctx: Context)
    requires x.Configured? && EntryOk(x, ctx) && x.index < ctx.transferCount
    ensures AskedFor(x, ctx.kind, ctx.position, ctx.transferCount)
  {
  }

  /** Whatever happens after a dispatch, the controller is configured for each
      transfer of the request as the dispatch asked. */
  lemma SettingsAsked(s: State, e: Event, es: seq<Event>)
    requires Inv(s) && Enabled(s, e) && e.Dispatch? && !e.cancelledEarly && !TooLong(e.descriptors)
    requires Inv(Step(s, e)) && Legal(Step(s, e), es)
    ensures e.r in After(Step(s, e), es).requests
    ensures forall x | x in After(Step(s, e), es).requests[e.r].trace && x.Configured? && x.index < |e.descriptors| ::
              AskedFor(x, e.kind, e.position, |e.descriptors|)
  {
    AcceptedAsDispatched(s, e);
    RunAsDispatched(Step(s, e), es, e);
    var s' := After(Step(s, e), es);
    assert RequestOk(s', e.r);
    var q := s'.requests[e.r];
    assert TraceOk(q.trace, q.ctx);
    forall x | x in q.trace && x.Configured? && x.index < |e.descriptors|
      ensures AskedFor(x, e.kind, e.position, |e.descriptors|)
    {
      SettingsFit(x, q.ctx);
    }
  }
}
