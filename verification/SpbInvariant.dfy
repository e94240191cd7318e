/** What every critical section keeps: the accounts and the order of the
    transfers of a request, whatever interrupts, timers and cancels do. */
module SpbInvariant {
  import opened SpbCore

  // ---------------------------------------------------------------------
  // Reading a trace

  /** Bytes of all finished transfers. */
  function SumBytes(trace: seq<Entry>): nat {
    if trace == [] then 0
    else
      var e := trace[|trace| - 1];
      SumBytes(trace[..|trace| - 1]) + if e.Finished? then e.bytes else 0
  }

  /** Lengths of all finished transfers. */
  function SumLengths(trace: seq<Entry>): nat {
    if trace == [] then 0
    else
      var e := trace[|trace| - 1];
      SumLengths(trace[..|trace| - 1]) + if e.Finished? then e.length else 0
  }

  /** The transfers that finished, in order. */
  function Transferred(trace: seq<Entry>): seq<nat> {
    if trace == [] then []
    else
      var e := trace[|trace| - 1];
      Transferred(trace[..|trace| - 1]) + if e.Finished? then [e.index] else []
  }

  /** The transfers the controller was configured for, in order. */
  function ConfiguredOnes(trace: seq<Entry>): seq<nat> {
    if trace == [] then []
    else
      var e := trace[|trace| - 1];
      ConfiguredOnes(trace[..|trace| - 1]) + if e.Configured? then [e.index] else []
  }

  /** The transfers that finished because they had been configured. */
  function StartedOnes(trace: seq<Entry>): seq<nat> {
    if trace == [] then []
    else
      var e := trace[|trace| - 1];
      StartedOnes(trace[..|trace| - 1]) + if e.Finished? && e.cause == Started then [e.index] else []
  }

  function Upto(n: nat): (s: seq<nat>)
    ensures |s| == n && forall i | 0 <= i < n :: s[i] == i
  {
    if n == 0 then [] else Upto(n - 1) + [n - 1]
  }

  /** One more entry. */
  lemma TraceStep(trace: seq<Entry>, e: Entry)
    ensures
      var t := trace + [e];
      && SumBytes(t) == SumBytes(trace) + (if e.Finished? then e.bytes else 0)
      && SumLengths(t) == SumLengths(trace) + (if e.Finished? then e.length else 0)
      && Transferred(t) == Transferred(trace) + (if e.Finished? then [e.index] else [])
      && ConfiguredOnes(t) == ConfiguredOnes(trace) + (if e.Configured? then [e.index] else [])
      && StartedOnes(t) == StartedOnes(trace) + (if e.Finished? && e.cause == Started then [e.index] else [])
  {
    assert (trace + [e])[..|trace|] == trace;
  }

  lemma UptoStep(n: nat)
    ensures Upto(n + 1) == Upto(n) + [n]
  {
  }

  // ---------------------------------------------------------------------
  // What is kept

  /** Each entry is as the descriptors and the position say. */
  ghost predicate EntryOk(e: Entry, ctx: Context) {
    match e
    case Configured(i, settings, _, _) => i < ctx.transferCount ==> settings == TransferSettings(PositionAt(ctx, i))
    case Finished(_, bytes, length, _, _) => bytes <= length
  }

  ghost predicate TraceOk(trace: seq<Entry>, ctx: Context) {
    && (forall e | e in trace :: EntryOk(e, ctx))
    && ctx.totalInformation == SumBytes(trace)
    && ConfiguredOnes(trace) == StartedOnes(trace)
  }

  ghost predicate Shape(ctx: Context, descriptors: seq<Descriptor>) {
    && ctx.transferCount == |descriptors| > 0
    && (ctx.kind != Sequence ==> |descriptors| == 1)
    && ctx.information <= ctx.length
    && (ctx.transferIndex < |descriptors| ==> ctx.position == PositionAt(ctx, ctx.transferIndex))
  }

  /** Finished so far: transfers 0 to index - 1, and the context is at index. */
  ghost predicate OnTrack(c: Core, descriptors: seq<Descriptor>) {
    && c.ctx.transferIndex < |descriptors|
    && Transferred(c.trace) == Upto(c.ctx.transferIndex)
    && c.ctx.length == descriptors[c.ctx.transferIndex].length
    && c.ctx.toDevice == descriptors[c.ctx.transferIndex].toDevice
    && Described(c.trace, descriptors)
  }

  /** Transfers have the lengths and the directions of their descriptors. */
  ghost predicate Described(trace: seq<Entry>, descriptors: seq<Descriptor>) {
    forall e | e in trace ::
      && e.index < |descriptors| && e.length == descriptors[e.index].length
      && (e.Configured? ==> e.toDevice == descriptors[e.index].toDevice)
  }

  /** Finished in all: transfers 0 to m - 1, which is all of them unless the
      last one was aborted. */
  ghost predicate RanInOrder(trace: seq<Entry>, descriptors: seq<Descriptor>) {
    var m := |Transferred(trace)|;
    && Transferred(trace) == Upto(m)
    && 1 <= m <= |descriptors|
    && (m < |descriptors| ==> trace != [] && trace[|trace| - 1].Finished? && trace[|trace| - 1].aborted)
    && Described(trace, descriptors)
  }

  /** A request the driver is working on. */
  ghost predicate Live(c: Core, descriptors: seq<Descriptor>) {
    && c.current && c.owned && !c.ctx.ioComplete && c.ctx.status != Cancelled
    && (c.cancel == Cancelable || c.cancel == Requested)
    && Shape(c.ctx, descriptors) && TraceOk(c.trace, c.ctx)
    && (c.cancel == Cancelable ==> OnTrack(c, descriptors))
  }

  /** A request the driver is done with, but for completing it. */
  ghost predicate Done(c: Core, descriptors: seq<Descriptor>) {
    && !c.current && (c.owned <==> !ReleasesTarget(c.ctx)) && c.ctx.ioComplete
    && c.ctx.transferCount == |descriptors|
    && TraceOk(c.trace, c.ctx)
    && if c.ctx.status == Cancelled then c.cancel == Delivered
       else c.cancel == Released && RanInOrder(c.trace, descriptors)
  }

  /** The fields that name the transfers of a request never change. */
  ghost predicate SameRequest(a: Context, b: Context) {
    && a.kind == b.kind && a.transferCount == b.transferCount
    && (a.kind != Sequence ==> a.position == b.position)
  }

  lemma SameTraceOk(trace: seq<Entry>, a: Context, b: Context)
    requires TraceOk(trace, a) && SameRequest(a, b) && a.totalInformation == b.totalInformation
    ensures TraceOk(trace, b)
  {
    forall e | e in trace
      ensures EntryOk(e, b)
    {
      assert EntryOk(e, a);
    }
  }

  // ---------------------------------------------------------------------
  // The end of a request

  /** What the end of a request starts from. */
  ghost predicate Ending(c: Core, descriptors: seq<Descriptor>) {
    && c.current && c.owned && !c.ctx.ioComplete
    && Shape(c.ctx, descriptors) && TraceOk(c.trace, c.ctx)
    && if c.ctx.status == Cancelled then c.cancel == Delivered
       else (c.cancel == Cancelable || c.cancel == Requested)
            && (c.cancel == Cancelable ==> RanInOrder(c.trace, descriptors))
  }

  lemma SettleKeeps(c: Core, descriptors: seq<Descriptor>)
    requires Ending(c, descriptors)
    ensures
      var r := Settle(c);
      && SameRequest(c.ctx, r.ctx)
      && if r.current then Live(r, descriptors) && r.cancel == Requested else Done(r, descriptors)
  {
    var r := Settle(c);
    SameTraceOk(c.trace, c.ctx, r.ctx);
  }

  // ---------------------------------------------------------------------
  // Going on

  /** A transfer that is configured and finishes at once. */
  lemma PairKeeps(trace: seq<Entry>, ctx: Context, first: Entry, second: Entry)
    requires TraceOk(trace, ctx) && EntryOk(first, ctx) && EntryOk(second, ctx)
    requires first.Configured? && second.Finished? && second.cause == Started && first.index == second.index
    ensures
      var t := trace + [first] + [second];
      && TraceOk(t, ctx.(totalInformation := ctx.totalInformation + second.bytes))
      && Transferred(t) == Transferred(trace) + [second.index]
  {
    TraceStep(trace, first);
    TraceStep(trace + [first], second);
    EntriesOk(trace, first, ctx, ctx);
    EntriesOk(trace + [first], second, ctx, ctx.(totalInformation := ctx.totalInformation + second.bytes));
  }

  lemma EntriesOk(trace: seq<Entry>, e: Entry, a: Context, b: Context)
    requires (forall x | x in trace :: EntryOk(x, a)) && EntryOk(e, a) && SameRequest(a, b)
    ensures forall x | x in trace + [e] :: EntryOk(x, b)
  {
    forall x | x in trace + [e]
      ensures EntryOk(x, b)
    {
      assert EntryOk(x, a);
    }
  }

  lemma PairDescribed(trace: seq<Entry>, descriptors: seq<Descriptor>, first: Entry, second: Entry)
    requires Described(trace, descriptors) && Described([first], descriptors) && Described([second], descriptors)
    ensures Described(trace + [first] + [second], descriptors)
  {
    assert first in [first] && second in [second];
  }

  /** A run of transfers adds no bytes and finishes exactly its transfers. */
  lemma {:induction false} BurstKeeps(trace: seq<Entry>, ctx: Context, descriptors: seq<Descriptor>, i: nat, j: nat)
    requires i <= j <= |descriptors|
    requires TraceOk(trace, ctx)
    ensures
      var t := trace + Burst(ctx, descriptors, i, j);
      TraceOk(t, ctx) && (Transferred(trace) == Upto(i) ==> Transferred(t) == Upto(j))
    decreases j - i
  {
    if i == j {
      assert trace + [] == trace;
    } else {
      var first, second := ConfiguredEntry(ctx, descriptors, i), Finished(i, 0, descriptors[i].length, false, Started);
      var t := trace + [first] + [second];
      PairKeeps(trace, ctx, first, second);
      assert ctx.(totalInformation := ctx.totalInformation + 0) == ctx;
      UptoStep(i);
      assert trace + Burst(ctx, descriptors, i, j) == t + Burst(ctx, descriptors, i + 1, j);
      BurstKeeps(t, ctx, descriptors, i + 1, j);
    }
  }

  /** And each is as its descriptor says. */
  lemma {:induction false} BurstDescribed(trace: seq<Entry>, ctx: Context, descriptors: seq<Descriptor>, i: nat, j: nat)
    requires i <= j <= |descriptors| && Described(trace, descriptors)
    ensures Described(trace + Burst(ctx, descriptors, i, j), descriptors)
    decreases j - i
  {
    if i == j {
      assert trace + [] == trace;
    } else {
      var first, second := ConfiguredEntry(ctx, descriptors, i), Finished(i, 0, descriptors[i].length, false, Started);
      var t := trace + [first] + [second];
      PairDescribed(trace, descriptors, first, second);
      assert trace + Burst(ctx, descriptors, i, j) == t + Burst(ctx, descriptors, i + 1, j);
      BurstDescribed(t, ctx, descriptors, i + 1, j);
    }
  }

  /** What going on with a transfer starts from. */
  ghost predicate Going(c: Core, descriptors: seq<Descriptor>, i: nat) {
    && c.current && c.owned && !c.ctx.ioComplete && c.ctx.status != Cancelled
    && (c.cancel == Cancelable || c.cancel == Requested)
    && c.ctx.transferCount == |descriptors| > 0 && (c.ctx.kind != Sequence ==> |descriptors| == 1)
    && c.ctx.information == 0 && TraceOk(c.trace, c.ctx)
    && (c.cancel == Cancelable ==>
          Transferred(c.trace) == Upto(i) && i <= |descriptors| && Described(c.trace, descriptors))
  }

  lemma ProceedKeeps(c: Core, descriptors: seq<Descriptor>)
    requires Going(c, descriptors, c.ctx.transferIndex) && c.ctx.transferIndex < |descriptors|
    ensures
      var r := Proceed(c, descriptors);
      && SameRequest(c.ctx, r.ctx)
      && if r.current then Live(r, descriptors) && (r.armed || r.cancel == Requested) else Done(r, descriptors)
  {
    var i, n := c.ctx.transferIndex, |descriptors|;
    var j := NextDelayed(descriptors, i);
    if i == j {
      SameTraceOk(c.trace, c.ctx, Proceed(c, descriptors).ctx);
    } else {
      RanKeeps(c, descriptors, j);
      if j == n {
        SettleKeeps(RanUpTo(c, descriptors, j), descriptors);
      }
    }
  }

  lemma RanKeeps(c: Core, descriptors: seq<Descriptor>, j: nat)
    requires Going(c, descriptors, c.ctx.transferIndex) && c.ctx.transferIndex < j <= |descriptors|
    ensures
      var r := RanUpTo(c, descriptors, j);
      && SameRequest(c.ctx, r.ctx) && Shape(r.ctx, descriptors) && TraceOk(r.trace, r.ctx)
      && (j < |descriptors| && c.cancel == Cancelable ==> OnTrack(r, descriptors))
      && (j == |descriptors| && c.cancel == Cancelable ==> RanInOrder(r.trace, descriptors))
  {
    var r := RanUpTo(c, descriptors, j);
    BurstKeeps(c.trace, c.ctx, descriptors, c.ctx.transferIndex, j);
    SameTraceOk(r.trace, c.ctx, r.ctx);
    if c.cancel == Cancelable {
      BurstDescribed(c.trace, c.ctx, descriptors, c.ctx.transferIndex, j);
    }
  }

  /** Counting a finished transfer keeps the accounts. */
  lemma CountedKeeps(c: Core, descriptors: seq<Descriptor>, abort: bool, cause: Cause)
    requires Shape(c.ctx, descriptors) && TraceOk(c.trace, c.ctx) && cause != Started
    ensures
      var r := Counted(c, abort, cause);
      && SameRequest(c.ctx, r.ctx) && Shape(r.ctx, descriptors) && TraceOk(r.trace, r.ctx)
      && (OnTrack(c, descriptors) ==> FinishedNext(r.trace, descriptors, c.ctx.transferIndex, abort))
  {
    var e := Finished(c.ctx.transferIndex, c.ctx.information, c.ctx.length, abort, cause);
    TraceStep(c.trace, e);
    var r := Counted(c, abort, cause);
    forall x | x in r.trace
      ensures EntryOk(x, r.ctx)
    {
      assert x == e || EntryOk(x, c.ctx);
    }
    if OnTrack(c, descriptors) {
      UptoStep(c.ctx.transferIndex);
      assert r.trace[|r.trace| - 1] == e;
    }
  }

  /** Transfer i is the last one that finished. */
  ghost predicate FinishedNext(trace: seq<Entry>, descriptors: seq<Descriptor>, i: nat, abort: bool) {
    && i < |descriptors|
    && Transferred(trace) == Upto(i + 1)
    && Described(trace, descriptors)
    && (abort ==> RanInOrder(trace, descriptors))
  }

  lemma TurnPasses(c: Core, descriptors: seq<Descriptor>)
    requires Going(c, descriptors, c.ctx.transferIndex + 1)
    ensures
      var next := c.(ctx := c.ctx.(transferIndex := c.ctx.transferIndex + 1));
      Going(next, descriptors, next.ctx.transferIndex)
  {
    SameTraceOk(c.trace, c.ctx, c.ctx.(transferIndex := c.ctx.transferIndex + 1));
  }

  /** A request whose transfers have all had their turn ends. */
  lemma AllDone(c: Core, descriptors: seq<Descriptor>)
    requires Going(c, descriptors, c.ctx.transferIndex) && c.ctx.transferIndex >= |descriptors|
    ensures Ending(c, descriptors)
  {
  }

  lemma AdvanceKeeps(c: Core, descriptors: seq<Descriptor>)
    requires Going(c, descriptors, c.ctx.transferIndex + 1)
    ensures
      var r := Advance(c, descriptors);
      && SameRequest(c.ctx, r.ctx)
      && if r.current then Live(r, descriptors) && (r.armed || r.cancel == Requested) else Done(r, descriptors)
  {
    TurnPasses(c, descriptors);
    var next := c.(ctx := c.ctx.(transferIndex := c.ctx.transferIndex + 1));
    if next.ctx.transferIndex < next.ctx.transferCount {
      ProceedKeeps(next, descriptors);
    } else {
      AllDone(next, descriptors);
      SettleKeeps(next, descriptors);
    }
  }

  /** The end of the current transfer by an interrupt or a cancel. */
  lemma CompleteKeeps(c: Core, descriptors: seq<Descriptor>, abort: bool, cause: Cause)
    requires c.current && c.owned && !c.ctx.ioComplete && Shape(c.ctx, descriptors) && TraceOk(c.trace, c.ctx)
    requires cause != Started
    requires if c.ctx.status == Cancelled then c.cancel == Delivered && abort
             else (c.cancel == Cancelable || c.cancel == Requested)
                  && (c.cancel == Cancelable ==> OnTrack(c, descriptors))
    ensures
      var r := CompleteTransfer(c, descriptors, abort, cause);
      && SameRequest(c.ctx, r.ctx)
      && if r.current then Live(r, descriptors) && (r.armed || r.cancel == Requested) else Done(r, descriptors)
  {
    CountedKeeps(c, descriptors, abort, cause);
    var counted := Counted(c, abort, cause);
    if abort {
      SettleKeeps(counted, descriptors);
    } else {
      AdvanceKeeps(counted, descriptors);
    }
  }

  /** The start of the current transfer, which the sample finishes at once. */
  lemma ConfigureKeeps(c: Core, descriptors: seq<Descriptor>)
    requires Live(c, descriptors)
    ensures
      var r := ConfigureForTransfer(c, descriptors);
      && SameRequest(c.ctx, r.ctx)
      && if r.current then Live(r, descriptors) && (r.armed || r.cancel == Requested) else Done(r, descriptors)
  {
    StartedKeeps(c, descriptors);
    AdvanceKeeps(Counted(SetUp(c), false, Started), descriptors);
  }

  lemma StartedKeeps(c: Core, descriptors: seq<Descriptor>)
    requires Live(c, descriptors)
    ensures
      var r := Counted(SetUp(c), false, Started);
      SameRequest(c.ctx, r.ctx) && Going(r, descriptors, c.ctx.transferIndex + 1)
  {
    var first := Configured(c.ctx.transferIndex, TransferSettings(c.ctx.position), c.ctx.length, c.ctx.toDevice);
    var second := Finished(c.ctx.transferIndex, c.ctx.information, c.ctx.length, false, Started);
    var r := Counted(SetUp(c), false, Started);
    assert r.trace == c.trace + [first] + [second];
    PairKeeps(c.trace, c.ctx, first, second);
    SameTraceOk(r.trace, c.ctx.(totalInformation := c.ctx.totalInformation + second.bytes), r.ctx);
    UptoStep(c.ctx.transferIndex);
    if c.cancel == Cancelable {
      PairDescribed(c.trace, descriptors, first, second);
    }
  }

  lemma MovedKeeps(c: Core, descriptors: seq<Descriptor>, o: TransferOutcome)
    requires Live(c, descriptors)
    ensures Live(c.(ctx := Moved(c.ctx, o)), descriptors)
    ensures SameRequest(c.ctx, Moved(c.ctx, o))
  {
    SameTraceOk(c.trace, c.ctx, Moved(c.ctx, o));
  }

  lemma FailedKeeps(c: Core, descriptors: seq<Descriptor>, status: Status, information: nat)
    requires Live(c, descriptors) && status != Cancelled && information <= c.ctx.information
    ensures
      var failed := c.(ctx := c.ctx.(status := status, information := information));
      var r := CompleteTransfer(failed, descriptors, true, Interrupt);
      && SameRequest(c.ctx, r.ctx)
      && if r.current then Live(r, descriptors) && (r.armed || r.cancel == Requested) else Done(r, descriptors)
  {
    var failed := c.(ctx := c.ctx.(status := status, information := information));
    SameTraceOk(c.trace, c.ctx, failed.ctx);
    CompleteKeeps(failed, descriptors, true, Interrupt);
  }

  /** What is left of a critical section: the request is live and still has
      something to wait for, or it is done. */
  ghost predicate Kept(c: Core, r: Core, descriptors: seq<Descriptor>) {
    && SameRequest(c.ctx, r.ctx)
    && if r.current
       then Live(r, descriptors) && (r.armed || r.cancel == Requested || (r.armed == c.armed && r.cancel == c.cancel))
       else Done(r, descriptors)
  }

  /** Whatever an interrupt says, and however often one comes. */
  lemma InterruptKeeps(c: Core, descriptors: seq<Descriptor>, flags: Flags, stat: Bits,
                       first: TransferOutcome, second: TransferOutcome)
    requires Live(c, descriptors)
    ensures Kept(c, ProcessInterrupts(c, descriptors, flags, stat, first, second), descriptors)
  {
    if TestAnyBits(stat, flags.addressNack) {
      FailedKeeps(c, descriptors, NoSuchDevice, 0);
    } else if TestAnyBits(stat, flags.dataNack) {
      FailedKeeps(c, descriptors, Success, c.ctx.information);
    } else if TestAnyBits(stat, flags.genericError) {
      FailedKeeps(c, descriptors, Unsuccessful, 0);
    } else {
      var ready := TestAnyBits(stat, c.ctx.dataReadyFlag);
      var c1 := if ready then c.(ctx := Moved(c.ctx, first)) else c;
      MovedKeeps(c, descriptors, first);
      if ready && !first.ok {
        FailedKeeps(c1, descriptors, TransferError, c1.ctx.information);
      } else {
        var c2 := if ready && c1.ctx.length == c1.ctx.information
                  then c1.(mask := c1.mask - c1.ctx.dataReadyFlag) else c1;
        if TestAnyBits(stat, flags.transferComplete) {
          CompletionKeeps(c2, descriptors, second);
        }
      }
    }
  }

  /** A transfer-complete interrupt, with the data that is still to be moved. */
  lemma CompletionKeeps(c: Core, descriptors: seq<Descriptor>, second: TransferOutcome)
    requires Live(c, descriptors)
    ensures c.ctx.length == c.ctx.information ==>
              Kept(c, CompleteTransfer(c, descriptors, false, Interrupt), descriptors)
    ensures
      var moved := c.(ctx := Moved(c.ctx, second));
      if second.ok then Kept(c, CompleteTransfer(moved, descriptors, false, Interrupt), descriptors)
      else Kept(c, CompleteTransfer(moved.(ctx := moved.ctx.(status := TransferError)), descriptors, true, Interrupt),
                descriptors)
  {
    CompleteKeeps(c, descriptors, false, Interrupt);
    MovedKeeps(c, descriptors, second);
    var moved := c.(ctx := Moved(c.ctx, second));
    if second.ok {
      CompleteKeeps(moved, descriptors, false, Interrupt);
    } else {
      FailedKeeps(moved, descriptors, TransferError, moved.ctx.information);
    }
  }

  /** An address NACK or a generic error drops the bytes of its transfer: the
      total stays what the earlier transfers made it. */
  lemma ErrorDropsBytes(c: Core, descriptors: seq<Descriptor>, flags: Flags, stat: Bits,
                        first: TransferOutcome, second: TransferOutcome)
    requires |descriptors| == c.ctx.transferCount && DropsBytes(flags, stat)
    ensures
      var r := ProcessInterrupts(c, descriptors, flags, stat, first, second);
      && r.ctx.totalInformation == c.ctx.totalInformation
      && r.trace == c.trace + [Finished(c.ctx.transferIndex, 0, c.ctx.length, true, Interrupt)]
      && r.ctx.status != Success
  {
  }

  /** A cancel callback that finds its request current ends it for good. */
  lemma CancelKeeps(c: Core, descriptors: seq<Descriptor>)
    requires Live(c, descriptors)
    ensures
      var r := CancelCurrent(c.(cancel := Delivered), descriptors);
      SameRequest(c.ctx, r.ctx) && Done(r, descriptors) && r.ctx.status == Cancelled
  {
    var cancelled := c.(cancel := Delivered, armed := false, interruptStatus := {}, ctx := c.ctx.(status := Cancelled));
    SameTraceOk(c.trace, c.ctx, cancelled.ctx);
    CompleteKeeps(cancelled, descriptors, true, Cancel);
  }

  /** The first transfer of a request that is taken on. */
  lemma StartKeeps(c: Core, descriptors: seq<Descriptor>)
    requires c.ctx.transferIndex == 0 && c.ctx.totalInformation == 0 && c.trace == []
    requires Live(c, descriptors)
    ensures
      var r := DoTransfer(c, descriptors);
      && SameRequest(c.ctx, r.ctx)
      && if r.current then Live(r, descriptors) && (r.armed || r.cancel == Requested) else Done(r, descriptors)
  {
    if c.ctx.delayInUs == 0 {
      ConfigureKeeps(c, descriptors);
    }
  }

  // ---------------------------------------------------------------------
  // The accounts of a finished request

  lemma {:induction false} SumBounded(trace: seq<Entry>, ctx: Context)
    requires forall e | e in trace :: EntryOk(e, ctx)
    ensures SumBytes(trace) <= SumLengths(trace)
  {
    if trace != [] {
      var e := trace[|trace| - 1];
      assert e in trace && EntryOk(e, ctx);
      SumBounded(trace[..|trace| - 1], ctx);
    }
  }

  function TotalLength(descriptors: seq<Descriptor>): nat {
    if descriptors == [] then 0
    else TotalLength(descriptors[..|descriptors| - 1]) + descriptors[|descriptors| - 1].length
  }

  /** Transfers that ran in order, each once, add up to a prefix of the request. */
  lemma {:induction false} LengthsOfPrefix(trace: seq<Entry>, descriptors: seq<Descriptor>, m: nat)
    requires Transferred(trace) == Upto(m) && m <= |descriptors| && Described(trace, descriptors)
    ensures SumLengths(trace) == TotalLength(descriptors[..m])
    decreases |trace|
  {
    if trace == [] {
      assert m == 0;
    } else {
      var rest, e := trace[..|trace| - 1], trace[|trace| - 1];
      forall x | x in rest
        ensures x in trace
      {
      }
      if e.Finished? {
        assert e in trace;
        assert Transferred(trace)[m - 1] == e.index;
        assert Upto(m)[..m - 1] == Upto(m - 1);
        assert Transferred(rest) == Transferred(trace)[..m - 1];
        LengthsOfPrefix(rest, descriptors, m - 1);
        assert descriptors[..m][..m - 1] == descriptors[..m - 1];
      } else {
        LengthsOfPrefix(rest, descriptors, m);
      }
    }
  }

  lemma {:induction false} PrefixLength(descriptors: seq<Descriptor>, m: nat)
    requires m <= |descriptors|
    ensures TotalLength(descriptors[..m]) <= TotalLength(descriptors)
    decreases |descriptors|
  {
    if m == |descriptors| {
      assert descriptors[..m] == descriptors;
    } else {
      var shorter := descriptors[..|descriptors| - 1];
      PrefixLength(shorter, m);
      assert shorter[..m] == descriptors[..m];
    }
  }
}
