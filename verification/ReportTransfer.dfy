/** hclient, the transfer of reports: the loops that pack, send, ask for and
    unpack them. */
module ReportTransfer {
  import opened CaseFold
  import opened BitArithmetic
  import opened Reports

  // ---------------------------------------------------------------------
  // Buttons

  /** The usages between the bounds, in their order. */
  function InRange(usages: seq<nat>, usageMin: nat, usageMax: nat): (r: seq<nat>)
    ensures |r| <= |usages|
  {
    if usages == [] then []
    else
      var last := usages[|usages| - 1];
      InRange(usages[..|usages| - 1], usageMin, usageMax) + if usageMin <= last <= usageMax then [last] else []
  }

  /** They are picked one by one, in the order in which they come. */
  lemma {:induction false} InRangeConcat(a: seq<nat>, b: seq<nat>, usageMin: nat, usageMax: nat)
    ensures InRange(a + b, usageMin, usageMax) == InRange(a, usageMin, usageMax) + InRange(b, usageMin, usageMax)
    decreases |b|
  {
    if b == [] {
      assert a + b == a;
    } else {
      var n := |b| - 1;
      var kept := if usageMin <= b[n] <= usageMax then [b[n]] else [];
      assert (a + b)[..|a| + n] == a + b[..n] && (a + b)[|a| + n] == b[n];
      InRangeConcat(a, b[..n], usageMin, usageMax);
      assert InRange(b, usageMin, usageMax) == InRange(b[..n], usageMin, usageMax) + kept;
      assert InRange(a + b, usageMin, usageMax) == InRange(a + b[..n], usageMin, usageMax) + kept;
    }
  }

  lemma InRangeOne(u: nat, usageMin: nat, usageMax: nat)
    ensures InRange([u], usageMin, usageMax) == if usageMin <= u && u <= usageMax then [u] else []
  {
    assert [u][..0] == [];
  }

  /** The buffer that has them at the front, and a zero behind if there is room. */
  function Compacted(usages: seq<nat>, count: nat, usageMin: nat, usageMax: nat): (r: seq<nat>)
    requires count <= |usages|
    ensures |r| == |usages|
  {
    var kept := InRange(usages[..count], usageMin, usageMax);
    kept + if |kept| < |usages| then [0] + usages[|kept| + 1..] else []
  }

  /** The usages of a buffer as its readers take them: up to the first zero. */
  function Listed(usages: seq<nat>): seq<nat> {
    if usages == [] || usages[0] == 0 then [] else [usages[0]] + Listed(usages[1..])
  }

  lemma {:induction false} ListedPrefix(kept: seq<nat>, rest: seq<nat>)
    requires rest == [] || rest[0] == 0
    ensures Listed(kept + rest) == kept <==> 0 !in kept
  {
    if kept == [] {
      assert kept + rest == rest;
    } else {
      assert (kept + rest)[1..] == kept[1..] + rest;
      ListedPrefix(kept[1..], rest);
      assert kept == [kept[0]] + kept[1..];
      if kept[0] != 0 && Listed(kept + rest) == kept {
        assert Listed(kept[1..] + rest) == kept[1..];
      }
    }
  }

  /** Readers find the usages of the range again exactly when none of them is 0,
      which is no usage. */
  lemma CompactedListed(usages: seq<nat>, count: nat, usageMin: nat, usageMax: nat)
    requires count <= |usages|
    ensures Listed(Compacted(usages, count, usageMin, usageMax)) == InRange(usages[..count], usageMin, usageMax)
            <==> 0 !in InRange(usages[..count], usageMin, usageMax)
  {
    var kept := InRange(usages[..count], usageMin, usageMax);
    ListedPrefix(kept, if |kept| < |usages| then [0] + usages[|kept| + 1..] else []);
  }

  /** The compaction, in place. */
  method Compact(usages: array<nat>, count: nat, usageMin: nat, usageMax: nat)
    requires count <= usages.Length
    modifies usages
    ensures usages[..] == Compacted(old(usages[..]), count, usageMin, usageMax)
  {
    ghost var before := usages[..];
    var next := MoveToFront(usages, count, usageMin, usageMax);
    ghost var kept := InRange(before[..count], usageMin, usageMax);
    if next < usages.Length {
      usages[next] := 0;
      assert usages[..] == kept + ([0] + before[next + 1..]);
    } else {
      assert usages[..] == kept + [];
    }
  }

  method MoveToFront(usages: array<nat>, count: nat, usageMin: nat, usageMax: nat) returns (next: nat)
    requires count <= usages.Length
    modifies usages
    ensures next <= count && usages[..next] == InRange(old(usages[..count]), usageMin, usageMax)
    ensures forall i | next <= i < usages.Length :: usages[i] == old(usages[i])
  {
    ghost var before, kept := usages[..], [];
    var index := 0;
    next := 0;
    while index < count
      invariant next <= index <= count && kept == InRange(before[..index], usageMin, usageMax)
      invariant usages[..next] == kept
      invariant forall i | next <= i < usages.Length :: usages[i] == before[i]
    {
      InRangeSnoc(before, index, usageMin, usageMax);
      if usageMin <= usages[index] <= usageMax {
        usages[next] := usages[index];
        next := next + 1;
        kept := kept + [before[index]];
        assert usages[..next] == kept;
      }
      index := index + 1;
    }
    assert before[..count] == old(usages[..count]);
  }

  lemma InRangeSnoc(usages: seq<nat>, index: nat, usageMin: nat, usageMax: nat)
    requires index < |usages|
    ensures InRange(usages[..index + 1], usageMin, usageMax) ==
            InRange(usages[..index], usageMin, usageMax)
            + if usageMin <= usages[index] <= usageMax then [usages[index]] else []
  {
    assert usages[..index + 1][..index] == usages[..index];
  }

  // ---------------------------------------------------------------------
  // Sending

  function Cleared(d: HidData): HidData {
    d.(isDataSet := false)
  }

  method ClearFlags(data: array<HidData>)
    modifies data
    ensures forall i | 0 <= i < data.Length :: data[i] == Cleared(old(data[i]))
  {
    var index := 0;
    while index < data.Length
      invariant index <= data.Length
      invariant forall i | 0 <= i < data.Length :: data[i] == if i < index then Cleared(old(data[i])) else old(data[i])
    {
      data[index] := data[index].(isDataSet := false);
      index := index + 1;
    }
  }

  /** The items of one report are set; if all are accepted they are marked. */
  method PackReport(data: array<HidData>, start: nat, accepts: Outcome, ghost ids: seq<Byte>)
    returns (report: Report, result: bool)
    requires ids == Ids(data[..]) && start < data.Length
    modifies data
    ensures report == Packed(ids, start, accepts) && (result <==> Complete(ids, start, accepts))
    ensures forall i | 0 <= i < data.Length ::
              data[i] == if result && start <= i && ids[i] == ids[start] then old(data[i]).(isDataSet := true)
                         else old(data[i])
  {
    var currReportId := data[start].reportId;
    report := Report(currReportId, []);
    var i := start;
    while i < data.Length
      invariant start <= i <= data.Length
      invariant report == Report(currReportId, Matching(ids, currReportId, start, i))
      invariant FirstFailure(ids, currReportId, start, start, accepts) ==
                FirstFailure(ids, currReportId, start, i, accepts)
    {
      if data[i].reportId == currReportId {
        if !accepts(start, i) {
          return report, false;
        }
        report := Report(currReportId, report.items + [i]);
      }
      i := i + 1;
    }
    i := start;
    while i < data.Length
      invariant start <= i <= data.Length
      invariant forall j | 0 <= j < data.Length ::
                  data[j] == if start <= j < i && ids[j] == ids[start] then old(data[j]).(isDataSet := true)
                             else old(data[j])
    {
      if currReportId == data[i].reportId {
        data[i] := data[i].(isDataSet := true);
      }
      i := i + 1;
    }
    result := true;
  }

  /** What the marks say when k items have been visited. */
  ghost predicate Marked(data: seq<HidData>, before: seq<HidData>, ids: seq<Byte>, k: nat, accepts: Outcome) {
    && |data| == |before| == |ids| && k <= |ids|
    && forall i | 0 <= i < |data| ::
         data[i] == before[i].(isDataSet := Covered(ids, ids[i], if k <= i then k else i + 1, accepts))
  }

  lemma CoveredNext(ids: seq<Byte>, id: Byte, k: nat, accepts: Outcome)
    requires k < |ids|
    ensures Covered(ids, id, k + 1, accepts) <==>
            Covered(ids, id, k, accepts) || (ids[k] == id && Complete(ids, k, accepts))
  {
  }

  lemma MarkedNext(data: seq<HidData>, data': seq<HidData>, before: seq<HidData>, ids: seq<Byte>, k: nat,
                   accepts: Outcome)
    requires Marked(data, before, ids, k, accepts) && k < |ids| == |data'|
    requires
      var sent := !Covered(ids, ids[k], k, accepts);
      forall i | 0 <= i < |data| ::
        data'[i] == if sent && Complete(ids, k, accepts) && k <= i && ids[i] == ids[k] then data[i].(isDataSet := true)
                    else data[i]
    ensures Marked(data', before, ids, k + 1, accepts)
  {
    forall i | 0 <= i < |data|
      ensures data'[i] == before[i].(isDataSet := Covered(ids, ids[i], if k + 1 <= i then k + 1 else i + 1, accepts))
    {
      CoveredNext(ids, ids[i], k, accepts);
    }
  }

  /** Every report sent for the first k items reached the device. */
  ghost predicate AllDelivered(ids: seq<Byte>, k: nat, accepts: Outcome, delivers: nat -> bool)
    requires k <= |ids|
  {
    forall i | 0 <= i < k && !Covered(ids, ids[i], i, accepts) :: delivers(i)
  }

  lemma DeliveredNext(ids: seq<Byte>, k: nat, accepts: Outcome, delivers: nat -> bool)
    requires k < |ids|
    ensures AllDelivered(ids, k + 1, accepts, delivers) <==>
            AllDelivered(ids, k, accepts, delivers) && (!Covered(ids, ids[k], k, accepts) ==> delivers(k))
  {
  }

  lemma SendsNext(ids: seq<Byte>, k: nat, accepts: Outcome)
    requires k < |ids|
    ensures Sends(ids, k + 1, accepts) ==
            if Covered(ids, ids[k], k, accepts) then Sends(ids, k, accepts)
            else Sends(ids, k, accepts) + [Packed(ids, k, accepts)]
  {
  }

  /** The reports sent for the first k items, and whether they all arrived. */
  ghost predicate SentFor(reports: seq<Report>, status: bool, ids: seq<Byte>, k: nat, accepts: Outcome,
                          delivers: nat -> bool)
  {
    k <= |ids| && reports == Sends(ids, k, accepts) && (status <==> AllDelivered(ids, k, accepts, delivers))
  }

  lemma SentForNext(reports: seq<Report>, status: bool, ids: seq<Byte>, k: nat, accepts: Outcome, delivers: nat -> bool)
    requires SentFor(reports, status, ids, k, accepts, delivers) && k < |ids|
    ensures
      if Covered(ids, ids[k], k, accepts) then SentFor(reports, status, ids, k + 1, accepts, delivers)
      else SentFor(reports + [Packed(ids, k, accepts)], status && delivers(k), ids, k + 1, accepts, delivers)
  {
    DeliveredNext(ids, k, accepts, delivers);
    SendsNext(ids, k, accepts);
  }

  /** A write: one report after the other is packed and sent. Setting the features
      goes the same way. */
  method Write(data: array<HidData>, accepts: Outcome, delivers: nat -> bool)
    returns (status: bool, reports: seq<Report>)
    modifies data
    ensures
      var ids := Ids(old(data[..]));
      && reports == Sends(ids, |ids|, accepts)
      && (status <==> AllDelivered(ids, |ids|, accepts, delivers))
      && Marked(data[..], old(data[..]), ids, |ids|, accepts)
  {
    ghost var before, ids := data[..], Ids(data[..]);
    ClearFlags(data);
    status, reports := true, [];
    var index := 0;
    while index < data.Length
      invariant index <= data.Length == |ids|
      invariant Marked(data[..], before, ids, index, accepts)
      invariant SentFor(reports, status, ids, index, accepts, delivers)
    {
      var report := Visit(data, index, accepts, before, ids);
      SentForNext(reports, status, ids, index, accepts, delivers);
      if report.Some? {
        reports := reports + [report.value];
        var writeStatus := delivers(index);
        status := status && writeStatus;
      }
      index := index + 1;
    }
  }

  /** One item of the loop: unless it is marked, its report is packed. */
  method Visit(data: array<HidData>, index: nat, accepts: Outcome, ghost before: seq<HidData>, ghost ids: seq<Byte>)
    returns (report: Option<Report>)
    requires index < data.Length && ids == Ids(before) && Marked(data[..], before, ids, index, accepts)
    modifies data
    ensures Marked(data[..], before, ids, index + 1, accepts)
    ensures report == if Covered(ids, ids[index], index, accepts) then None else Some(Packed(ids, index, accepts))
  {
    ghost var was := data[..];
    SameIds(was, before, ids, index, accepts);
    report := None;
    assert was[index].isDataSet == Covered(ids, ids[index], index, accepts);
    if !data[index].isDataSet {
      var r, packed := PackReport(data, index, accepts, ids);
      report := Some(r);
    }
    MarkedNext(was, data[..], before, ids, index, accepts);
  }

  lemma SameIds(data: seq<HidData>, before: seq<HidData>, ids: seq<Byte>, k: nat, accepts: Outcome)
    requires Marked(data, before, ids, k, accepts) && ids == Ids(before)
    ensures Ids(data) == ids
  {
    forall i | 0 <= i < |ids|
      ensures data[i].reportId == ids[i]
    {
    }
  }

  // ---------------------------------------------------------------------
  // Asking for features

  /** What the parser finds in the report asked for at one item about another:
      whether it accepts that, the buttons that are down, and a value, plain and
      scaled. It may accept the plain value only. */
  datatype Parser = Parser(accepts: Outcome, usages: (nat, nat) -> seq<nat>, value: (nat, nat) -> int,
                           scaledValue: (nat, nat) -> int, plain: Outcome)

  /** A buffer with new contents at the front, as much as it takes. */
  function Overlaid(usages: seq<nat>, buffer: seq<nat>): (r: seq<nat>)
    ensures |r| == |buffer|
  {
    if |usages| <= |buffer| then usages + buffer[|usages|..] else usages[..|buffer|]
  }

  function Filled(d: HidData, s: nat, i: nat, parser: Parser): HidData {
    match d
    case Button(id, _, usageMin, usageMax, buffer) =>
      var usages := parser.usages(s, i);
      var count := if |usages| <= |buffer| then |usages| else |buffer|;
      Button(id, true, usageMin, usageMax, Compacted(Overlaid(usages, buffer), count, usageMin, usageMax))
    case Value(id, _, _, _) =>
      Value(id, true, parser.value(s, i), parser.scaledValue(s, i))
  }

  /** An item that the parser rejects: a plain value that it accepted before is
      kept, unmarked. */
  function Rejected(d: HidData, s: nat, i: nat, parser: Parser): HidData {
    if d.Value? && parser.plain(s, i) then d.(value := parser.value(s, i)) else d
  }

  /** What the answer to the request at s makes of item i. */
  function Unpacked(d: HidData, ids: seq<Byte>, s: nat, i: nat, parser: Parser): HidData
    requires s < |ids| && i < |ids|
  {
    if FilledBy(ids, s, i, parser.accepts) then Filled(d, s, i, parser)
    else if i == FirstFailure(ids, ids[s], s, 0, parser.accepts) then Rejected(d, s, i, parser)
    else d
  }

  /** An item after the requests at the first k items. */
  ghost function Content(d: HidData, ids: seq<Byte>, i: nat, k: nat, delivers: nat -> bool, parser: Parser): HidData
    requires k <= |ids| && i < |ids|
  {
    if k == 0 then Cleared(d)
    else
      var before := Content(d, ids, i, k - 1, delivers, parser);
      if Requested(ids, k - 1, delivers, parser.accepts) && delivers(k - 1) then Unpacked(before, ids, k - 1, i, parser)
      else before
  }

  lemma UnpackedMark(d: HidData, ids: seq<Byte>, s: nat, i: nat, parser: Parser)
    requires s < |ids| && i < |ids|
    ensures
      var d' := Unpacked(d, ids, s, i, parser);
      d'.reportId == d.reportId && (d'.isDataSet <==> d.isDataSet || FilledBy(ids, s, i, parser.accepts))
  {
  }

  /** The request at s was answered as far as item i. */
  ghost predicate AnsweredBy(ids: seq<Byte>, s: nat, i: nat, delivers: nat -> bool, accepts: Outcome)
    requires s < |ids| && i < |ids|
  {
    Requested(ids, s, delivers, accepts) && delivers(s) && FilledBy(ids, s, i, accepts)
  }

  lemma ContentStep(d: HidData, ids: seq<Byte>, i: nat, k: nat, delivers: nat -> bool, parser: Parser)
    requires k < |ids| && i < |ids|
    ensures
      var before, now := Content(d, ids, i, k, delivers, parser), Content(d, ids, i, k + 1, delivers, parser);
      && now.reportId == before.reportId
      && (now.isDataSet <==> before.isDataSet || AnsweredBy(ids, k, i, delivers, parser.accepts))
  {
    UnpackedMark(Content(d, ids, i, k, delivers, parser), ids, k, i, parser);
  }

  lemma {:induction false} ContentMark(d: HidData, ids: seq<Byte>, i: nat, k: nat, delivers: nat -> bool,
                                       parser: Parser)
    requires k <= |ids| && i < |ids|
    ensures Content(d, ids, i, k, delivers, parser).reportId == d.reportId
    ensures Content(d, ids, i, k, delivers, parser).isDataSet <==>
            exists s | 0 <= s < k :: AnsweredBy(ids, s, i, delivers, parser.accepts)
  {
    if k > 0 {
      ContentMark(d, ids, i, k - 1, delivers, parser);
      ContentStep(d, ids, i, k - 1, delivers, parser);
    }
  }

  lemma RequestedUnanswered(ids: seq<Byte>, i: nat, delivers: nat -> bool, accepts: Outcome)
    requires i < |ids|
    ensures Requested(ids, i, delivers, accepts) <==> forall s | 0 <= s < i :: !AnsweredBy(ids, s, i, delivers, accepts)
  {
    forall s | 0 <= s < i
      ensures AnsweredBy(ids, s, i, delivers, accepts) <==>
              Requested(ids, s, delivers, accepts) && delivers(s) && FilledBy(ids, s, i, accepts)
    {
    }
  }

  /** An item is filled once the request for its id has been answered, and from
      that answer alone when no request fails. */
  lemma {:induction false} ContentOnce(d: HidData, ids: seq<Byte>, i: nat, k: nat, delivers: nat -> bool,
                                       parser: Parser, first: nat)
    requires k <= |ids| && i < |ids| && first <= i && ids[first] == ids[i] && ids[first] !in ids[..first]
    requires forall s | 0 <= s < |ids| :: delivers(s)
    requires forall s, j | 0 <= s < |ids| && 0 <= j < |ids| :: parser.accepts(s, j)
    ensures Content(d, ids, i, k, delivers, parser) ==
            if first < k then Filled(Cleared(d), first, i, parser) else Cleared(d)
  {
    if k > 0 {
      var s := k - 1;
      ContentOnce(d, ids, i, s, delivers, parser, first);
      FirstRequested(ids, first, delivers, parser.accepts);
      if s < first {
        assert ids[..first][s] == ids[s];
      } else if s > first && ids[s] == ids[i] {
        AskedBefore(ids, first, s, delivers, parser.accepts);
      } else if s == first {
        assert FilledBy(ids, first, i, parser.accepts);
      }
    }
  }

  lemma AskedBefore(ids: seq<Byte>, first: nat, s: nat, delivers: nat -> bool, accepts: Outcome)
    requires first < s < |ids| && ids[first] == ids[s] && Requested(ids, first, delivers, accepts)
    requires delivers(first) && forall j | 0 <= j < |ids| :: accepts(first, j)
    ensures !Requested(ids, s, delivers, accepts)
  {
    assert FilledBy(ids, first, s, accepts);
  }

  /** Item i has its turn in the answer to the request at s. */
  ghost predicate HasTurn(ids: seq<Byte>, s: nat, i: nat, delivers: nat -> bool, accepts: Outcome)
    requires s < |ids| && i < |ids|
  {
    && Requested(ids, s, delivers, accepts) && delivers(s) && ids[s] == ids[i]
    && forall j | 0 <= j < i && ids[j] == ids[s] :: accepts(s, j)
  }

  lemma FailsHere(ids: seq<Byte>, s: nat, i: nat, lo: nat, accepts: Outcome)
    requires s < |ids| && lo <= i < |ids| && ids[s] == ids[i]
    ensures
      var f := FirstFailure(ids, ids[s], s, lo, accepts);
      && (i < f <==> forall j | lo <= j <= i && ids[j] == ids[s] :: accepts(s, j))
      && (i == f <==> !accepts(s, i) && forall j | lo <= j < i && ids[j] == ids[s] :: accepts(s, j))
  {
  }

  /** A value in its turn gets the plain and the scaled value and is marked; if the
      parser rejects it, it keeps its mark and its scaled value, and gets no more
      than a plain value that is accepted. */
  lemma ValueRead(d: HidData, ids: seq<Byte>, s: nat, i: nat, delivers: nat -> bool, parser: Parser)
    requires s < |ids| && i < |ids| && HasTurn(ids, s, i, delivers, parser.accepts)
    ensures
      var before, now := Content(d, ids, i, s, delivers, parser), Content(d, ids, i, s + 1, delivers, parser);
      before.Value? ==>
        now == if parser.accepts(s, i) then Value(before.reportId, true, parser.value(s, i), parser.scaledValue(s, i))
               else if parser.plain(s, i) then
                 Value(before.reportId, before.isDataSet, parser.value(s, i), before.scaledValue)
               else before
  {
    FailsHere(ids, s, i, 0, parser.accepts);
  }

  /** A set of buttons in its turn gets those of its range that are down, and is
      marked; rejected, it stays as it was. */
  lemma ButtonsRead(d: HidData, ids: seq<Byte>, s: nat, i: nat, delivers: nat -> bool, parser: Parser)
    requires s < |ids| && i < |ids| && HasTurn(ids, s, i, delivers, parser.accepts)
    ensures
      var before, now := Content(d, ids, i, s, delivers, parser), Content(d, ids, i, s + 1, delivers, parser);
      var down := parser.usages(s, i);
      before.Button? ==>
        if !parser.accepts(s, i) then now == before
        else
          && now.Button? && now == before.(isDataSet := true, usages := now.usages)
          && |now.usages| == |before.usages|
          && (|down| <= |before.usages| && 0 !in down ==>
                Listed(now.usages) == InRange(down, before.usageMin, before.usageMax))
  {
    FailsHere(ids, s, i, 0, parser.accepts);
    var before, down := Content(d, ids, i, s, delivers, parser), parser.usages(s, i);
    if before.Button? && parser.accepts(s, i) && |down| <= |before.usages| && 0 !in down {
      var contents := Overlaid(down, before.usages);
      assert contents[..|down|] == down;
      CompactedListed(contents, |down|, before.usageMin, before.usageMax);
      InRangeMembers(down, before.usageMin, before.usageMax);
    }
  }

  lemma {:induction false} InRangeMembers(usages: seq<nat>, usageMin: nat, usageMax: nat)
    ensures forall u | u in InRange(usages, usageMin, usageMax) :: u in usages
  {
    if usages != [] {
      InRangeMembers(usages[..|usages| - 1], usageMin, usageMax);
    }
  }

  /** Out of its turn nothing of an item changes. */
  lemma NotRead(d: HidData, ids: seq<Byte>, s: nat, i: nat, delivers: nat -> bool, parser: Parser)
    requires s < |ids| && i < |ids| && !HasTurn(ids, s, i, delivers, parser.accepts)
    ensures Content(d, ids, i, s + 1, delivers, parser) == Content(d, ids, i, s, delivers, parser)
  {
    if ids[s] == ids[i] {
      FailsHere(ids, s, i, 0, parser.accepts);
    }
  }

  /** Every request for the first k items was answered in full. */
  ghost predicate AllAnswered(ids: seq<Byte>, k: nat, delivers: nat -> bool, accepts: Outcome)
    requires k <= |ids|
  {
    forall s | 0 <= s < k && Requested(ids, s, delivers, accepts) ::
      delivers(s) && FirstFailure(ids, ids[s], s, 0, accepts) == |ids|
  }

  lemma AnsweredNext(ids: seq<Byte>, k: nat, delivers: nat -> bool, accepts: Outcome)
    requires k < |ids|
    ensures AllAnswered(ids, k + 1, delivers, accepts) <==>
            AllAnswered(ids, k, delivers, accepts)
            && (Requested(ids, k, delivers, accepts) ==>
                  delivers(k) && FirstFailure(ids, ids[k], k, 0, accepts) == |ids|)
  {
  }

  /** One item is taken out of the report, unless the parser rejects it. */
  method UnpackItem(d: HidData, request: nat, i: nat, parser: Parser) returns (filled: HidData, accepted: bool)
    ensures accepted == parser.accepts(request, i)
    ensures filled == if accepted then Filled(d, request, i, parser) else Rejected(d, request, i, parser)
  {
    accepted := parser.accepts(request, i);
    filled := d;
    match d
    case Button(id, _, usageMin, usageMax, buffer) =>
      if !accepted {
        return;
      }
      var usages := parser.usages(request, i);
      var contents := Overlaid(usages, buffer);
      var a := new nat[|buffer|](k requires 0 <= k < |buffer| => contents[k]);
      assert a[..] == contents;
      Compact(a, if |usages| <= |buffer| then |usages| else |buffer|, usageMin, usageMax);
      filled := Button(id, true, usageMin, usageMax, a[..]);
    case Value(_, _, _, _) =>
      if accepted || parser.plain(request, i) {
        filled := filled.(value := parser.value(request, i));
      }
      if accepted {
        filled := filled.(scaledValue := parser.scaledValue(request, i), isDataSet := true);
      }
  }

  /** The items of one report are filled, up to the first that is rejected, which
      may keep a plain value. */
  method UnpackReport(data: array<HidData>, request: nat, parser: Parser, ghost ids: seq<Byte>) returns (result: bool)
    requires ids == Ids(data[..]) && request < data.Length
    modifies data
    ensures result <==> FirstFailure(ids, ids[request], request, 0, parser.accepts) == |ids|
    ensures forall i | 0 <= i < data.Length ::
              data[i] == Unpacked(old(data[i]), ids, request, i, parser)
  {
    var reportId := data[request].reportId;
    ghost var failure := FirstFailure(ids, reportId, request, 0, parser.accepts);
    var i := 0;
    while i < data.Length
      invariant i <= data.Length
      invariant failure == FirstFailure(ids, reportId, request, i, parser.accepts)
      invariant forall j | 0 <= j < data.Length ::
                  data[j] == if j < i && ids[j] == reportId then Filled(old(data[j]), request, j, parser)
                             else old(data[j])
    {
      if reportId == data[i].reportId {
        var accepted;
        data[i], accepted := UnpackItem(data[i], request, i, parser);
        if !accepted {
          return false;
        }
      }
      i := i + 1;
    }
    result := true;
  }

  /** The items as they are after the requests at the first k. */
  ghost predicate Answered(data: seq<HidData>, before: seq<HidData>, ids: seq<Byte>, k: nat, delivers: nat -> bool,
                           parser: Parser)
  {
    && |data| == |before| == |ids| && k <= |ids|
    && forall i | 0 <= i < |data| :: data[i] == Content(before[i], ids, i, k, delivers, parser)
  }

  lemma AnsweredIds(data: seq<HidData>, before: seq<HidData>, ids: seq<Byte>, k: nat, delivers: nat -> bool,
                    parser: Parser)
    requires Answered(data, before, ids, k, delivers, parser) && ids == Ids(before)
    ensures Ids(data) == ids
    ensures k < |ids| ==> (data[k].isDataSet <==> !Requested(ids, k, delivers, parser.accepts))
  {
    forall i | 0 <= i < |ids|
      ensures data[i].reportId == ids[i]
    {
      ContentMark(before[i], ids, i, k, delivers, parser);
    }
    if k < |ids| {
      ContentMark(before[k], ids, k, k, delivers, parser);
      RequestedUnanswered(ids, k, delivers, parser.accepts);
    }
  }

  /** One item of the loop: unless it is filled, its report is asked for. */
  method Ask(data: array<HidData>, index: nat, delivers: nat -> bool, parser: Parser, ghost before: seq<HidData>,
             ghost ids: seq<Byte>) returns (asked: bool, featureStatus: bool)
    requires index < data.Length && ids == Ids(before) && Answered(data[..], before, ids, index, delivers, parser)
    modifies data
    ensures Answered(data[..], before, ids, index + 1, delivers, parser)
    ensures asked <==> Requested(ids, index, delivers, parser.accepts)
    ensures featureStatus <==>
            (asked ==> delivers(index) && FirstFailure(ids, ids[index], index, 0, parser.accepts) == |ids|)
  {
    AnsweredIds(data[..], before, ids, index, delivers, parser);
    asked, featureStatus := !data[index].isDataSet, true;
    if asked {
      featureStatus := delivers(index);
      if featureStatus {
        featureStatus := UnpackReport(data, index, parser, ids);
      }
    }
    forall i | 0 <= i < data.Length
      ensures data[i] == Content(before[i], ids, i, index + 1, delivers, parser)
    {
    }
  }

  /** The requests at the first k items, and whether all went well. */
  ghost predicate AskedFor(requests: seq<nat>, status: bool, ids: seq<Byte>, k: nat, delivers: nat -> bool,
                           accepts: Outcome)
  {
    && k <= |ids| && requests == Requests(ids, k, delivers, accepts)
    && (status <==> AllAnswered(ids, k, delivers, accepts))
  }

  lemma AskedForNext(requests: seq<nat>, status: bool, ids: seq<Byte>, k: nat, delivers: nat -> bool, accepts: Outcome)
    requires AskedFor(requests, status, ids, k, delivers, accepts) && k < |ids|
    ensures
      if Requested(ids, k, delivers, accepts) then
        AskedFor(requests + [k], status && delivers(k) && FirstFailure(ids, ids[k], k, 0, accepts) == |ids|,
                 ids, k + 1, delivers, accepts)
      else AskedFor(requests, status, ids, k + 1, delivers, accepts)
  {
    AnsweredNext(ids, k, delivers, accepts);
  }

  /** Getting the features: a report is asked for at every item not filled yet. */
  method GetFeature(data: array<HidData>, delivers: nat -> bool, parser: Parser)
    returns (status: bool, requests: seq<nat>)
    modifies data
    ensures
      var ids := Ids(old(data[..]));
      && requests == Requests(ids, |ids|, delivers, parser.accepts)
      && (status <==> AllAnswered(ids, |ids|, delivers, parser.accepts))
      && Answered(data[..], old(data[..]), ids, |ids|, delivers, parser)
  {
    ghost var before, ids := data[..], Ids(data[..]);
    ClearFlags(data);
    status, requests := true, [];
    var index := 0;
    while index < data.Length
      invariant index <= data.Length == |ids|
      invariant Answered(data[..], before, ids, index, delivers, parser)
      invariant AskedFor(requests, status, ids, index, delivers, parser.accepts)
    {
      var asked, featureStatus := Ask(data, index, delivers, parser, before, ids);
      AskedForNext(requests, status, ids, index, delivers, parser.accepts);
      if asked {
        requests := requests + [index];
        status := status && featureStatus;
      }
      index := index + 1;
    }
  }
}
