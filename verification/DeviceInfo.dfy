/** hclient, the data items of a device: one slot for each set of buttons and one
    for each usage of the value capabilities. */
module DeviceInfo {

  const USAGE_LIMIT := 0x1_0000
  const ULONG_LIMIT := 0x1_0000_0000

  type Usage = u: nat | u < USAGE_LIMIT
  type Count = n: nat | n < USAGE_LIMIT

  datatype ButtonCap = ButtonCap(usagePage: Usage, reportId: nat, isRange: bool, usageMin: Usage, usageMax: Usage,
                                 usage: Usage, maxUsageLength: nat)

  datatype ValueCap = ValueCap(usagePage: Usage, reportId: nat, isRange: bool, usageMin: Usage, usageMax: Usage,
                               usage: Usage)

  /** A slot of the data array; zeros until it is filled. */
  datatype Slot =
    | Unfilled
    | Buttons(usagePage: Usage, reportId: nat, usageMin: Usage, usageMax: Usage, maxUsageLength: nat)
    | Value(usagePage: Usage, reportId: nat, usage: Usage)

  // ---------------------------------------------------------------------
  // What there is to list

  function ButtonSlot(c: ButtonCap): Slot {
    if c.isRange then Buttons(c.usagePage, c.reportId, c.usageMin, c.usageMax, c.maxUsageLength)
    else Buttons(c.usagePage, c.reportId, c.usage, c.usage, c.maxUsageLength)
  }

  function ButtonSlots(caps: seq<ButtonCap>): (r: seq<Slot>)
    ensures |r| == |caps|
  {
    seq(|caps|, i requires 0 <= i < |caps| => ButtonSlot(caps[i]))
  }

  /** The usages of a capability, each once and in order. */
  function Expansion(c: ValueCap): seq<Slot> {
    if !c.isRange then [Value(c.usagePage, c.reportId, c.usage)]
    else if c.usageMin > c.usageMax then []
    else seq(c.usageMax - c.usageMin + 1,
             i requires 0 <= i < c.usageMax - c.usageMin + 1 => Value(c.usagePage, c.reportId, c.usageMin + i))
  }

  function Expansions(caps: seq<ValueCap>): seq<Slot> {
    if caps == [] then [] else Expansions(caps[..|caps| - 1]) + Expansion(caps[|caps| - 1])
  }

  /** A set of buttons is listed with its page and its report, from the first usage
      of its range to the last, or with its one usage as both. */
  lemma ButtonListed(buttons: seq<ButtonCap>, values: seq<ValueCap>, i: nat)
    requires i < |buttons|
    ensures
      var c, slot := buttons[i], (ButtonSlots(buttons) + Expansions(values))[i];
      && slot.Buttons? && slot.usagePage == c.usagePage && slot.reportId == c.reportId
      && slot.maxUsageLength == c.maxUsageLength
      && slot.usageMin == (if c.isRange then c.usageMin else c.usage)
      && slot.usageMax == (if c.isRange then c.usageMax else c.usage)
  {
    assert (ButtonSlots(buttons) + Expansions(values))[i] == ButtonSlots(buttons)[i];
  }

  /** The usages of a capability: a range with both ends, or one usage. */
  predicate HasUsage(c: ValueCap, u: int) {
    if c.isRange then c.usageMin <= u <= c.usageMax else u == c.usage
  }

  /** A value is listed exactly when it is a usage of a capability, with the page and
      the report of that. */
  lemma {:induction false} ValueListed(values: seq<ValueCap>, page: Usage, id: nat, u: Usage)
    ensures Value(page, id, u) in Expansions(values) <==>
              exists c | c in values :: c.usagePage == page && c.reportId == id && HasUsage(c, u)
  {
    if values != [] {
      var n := |values| - 1;
      ValueListed(values[..n], page, id, u);
      InExpansion(values[n], page, id, u);
      assert values == values[..n] + [values[n]];
    }
  }

  lemma InExpansion(c: ValueCap, page: Usage, id: nat, u: Usage)
    ensures Value(page, id, u) in Expansion(c) <==> c.usagePage == page && c.reportId == id && HasUsage(c, u)
  {
    if c.isRange && c.usageMin <= u <= c.usageMax {
      assert Expansion(c)[u - c.usageMin] == Value(c.usagePage, c.reportId, u);
    }
  }

  /** The usages of a range stand one behind the other, in their order. */
  lemma RangeInOrder(values: seq<ValueCap>, k: nat, u: Usage)
    requires k < |values| && values[k].isRange && values[k].usageMin <= u <= values[k].usageMax
    ensures
      var c, at := values[k], |Expansions(values[..k])| + u - values[k].usageMin;
      at < |Expansions(values)| && Expansions(values)[at] == Value(c.usagePage, c.reportId, u)
  {
    ExpansionsNext(values, k);
    ExpansionsGrow(values, k + 1);
    var place := Expansion(values[k])[u - values[k].usageMin];
    assert place == Value(values[k].usagePage, values[k].reportId, u);
    InMiddle(Expansions(values), Expansions(values[..k]), Expansion(values[k]), u - values[k].usageMin);
  }

  lemma InMiddle(all: seq<Slot>, before: seq<Slot>, part: seq<Slot>, i: nat)
    requires before + part <= all && i < |part|
    ensures |before| + i < |all| && all[|before| + i] == part[i]
  {
    assert (before + part)[|before| + i] == part[i];
  }

  /** What the program counts for a capability, negative for a range that is more
      than empty, and what it counts in all. */
  function Width(c: ValueCap): int {
    if c.isRange then c.usageMax - c.usageMin + 1 else 1
  }

  function Widths(caps: seq<ValueCap>): int {
    if caps == [] then 0 else Widths(caps[..|caps| - 1]) + Width(caps[|caps| - 1])
  }

  /** A loop over the usages of the capability ends: 16 bits do not go beyond the
      last usage there is. */
  predicate Ends(c: ValueCap) {
    c.isRange ==> c.usageMax < USAGE_LIMIT - 1
  }

  predicate AllEnd(caps: seq<ValueCap>) {
    forall i | 0 <= i < |caps| :: Ends(caps[i])
  }

  predicate Ordered(c: ValueCap) {
    c.isRange ==> c.usageMin <= c.usageMax
  }

  predicate AllOrdered(caps: seq<ValueCap>) {
    forall i | 0 <= i < |caps| :: Ordered(caps[i])
  }

  /** An empty range may end one below its start and is still counted right. */
  predicate CountedRight(c: ValueCap) {
    c.isRange ==> c.usageMin <= c.usageMax + 1
  }

  predicate AllCounted(caps: seq<ValueCap>) {
    forall i | 0 <= i < |caps| :: CountedRight(caps[i])
  }

  lemma AllCountedSplit(caps: seq<ValueCap>, n: nat)
    requires n + 1 == |caps|
    ensures AllCounted(caps) <==> AllCounted(caps[..n]) && CountedRight(caps[n])
  {
    if AllCounted(caps[..n]) && CountedRight(caps[n]) {
      forall i | 0 <= i < |caps|
        ensures CountedRight(caps[i])
      {
        assert i < n ==> caps[..n][i] == caps[i];
      }
    }
  }

  lemma {:induction false} WidthsBounded(caps: seq<ValueCap>)
    ensures -(USAGE_LIMIT - 2) * |caps| <= Widths(caps) <= USAGE_LIMIT * |caps|
    ensures Widths(caps) <= |Expansions(caps)| <= Widths(caps) + (USAGE_LIMIT - 2) * |caps|
  {
    if caps != [] {
      WidthsBounded(caps[..|caps| - 1]);
    }
  }

  /** The count is the number of usages exactly when it is right for each range. */
  lemma {:induction false} WidthsExact(caps: seq<ValueCap>)
    ensures Widths(caps) <= |Expansions(caps)|
    ensures Widths(caps) == |Expansions(caps)| <==> AllCounted(caps)
  {
    if caps != [] {
      var n := |caps| - 1;
      WidthsExact(caps[..n]);
      AllCountedSplit(caps, n);
    }
  }

  // ---------------------------------------------------------------------
  // The two passes

  lemma WidthsNext(caps: seq<ValueCap>, i: nat)
    requires i < |caps|
    ensures Widths(caps[..i + 1]) == Widths(caps[..i]) + Width(caps[i])
  {
    assert caps[..i + 1][..i] == caps[..i];
  }

  lemma OrderedNext(caps: seq<ValueCap>, i: nat)
    requires i < |caps| && AllOrdered(caps[..i]) && Ordered(caps[i])
    ensures AllOrdered(caps[..i + 1])
  {
    assert forall j | 0 <= j < i :: caps[..i + 1][j] == caps[..i][j];
  }

  /** The counting pass of the input section; it refuses a range without usages. */
  method CountInput(caps: seq<ValueCap>) returns (ok: bool, numValues: nat)
    requires |caps| < USAGE_LIMIT
    ensures ok <==> AllOrdered(caps)
    ensures ok ==> numValues == Widths(caps) == |Expansions(caps)|
  {
    numValues := 0;
    var i := 0;
    assert caps[..0] == [];
    while i < |caps|
      invariant i <= |caps| && AllOrdered(caps[..i])
      invariant numValues == Widths(caps[..i])
    {
      WidthsNext(caps, i);
      WidthsBounded(caps[..i + 1]);
      numValues := (numValues + Width(caps[i])) % ULONG_LIMIT;
      if caps[i].isRange && caps[i].usageMin > caps[i].usageMax {
        assert !Ordered(caps[i]);
        return false, numValues;
      }
      OrderedNext(caps, i);
      i := i + 1;
    }
    assert caps[..i] == caps;
    WidthsExact(caps);
    ok := true;
  }

  /** The counting pass of the feature section; it refuses nothing. */
  method CountFeature(caps: seq<ValueCap>) returns (numValues: nat)
    ensures numValues == Widths(caps) % ULONG_LIMIT
  {
    numValues := 0;
    var i := 0;
    assert caps[..0] == [];
    while i < |caps|
      invariant i <= |caps| && numValues == Widths(caps[..i]) % ULONG_LIMIT
    {
      WidthsNext(caps, i);
      numValues := (numValues + Width(caps[i])) % ULONG_LIMIT;
      i := i + 1;
    }
    assert caps[..i] == caps;
  }

  lemma SameFrom(a: seq<Slot>, b: seq<Slot>, from: nat)
    requires |a| == |b| && from <= |a| && forall i | from <= i < |a| :: a[i] == b[i]
    ensures a[from..] == b[from..]
  {
  }

  /** The usages of one range go into the slots from dataIdx on. */
  method FillRange(data: array<Slot>, start: nat, c: ValueCap) returns (ok: bool, dataIdx: nat)
    requires start <= data.Length && c.isRange
    modifies data
    ensures ok <==> Ends(c) && start + |Expansion(c)| <= data.Length
    ensures ok ==> dataIdx == start + |Expansion(c)| && data[start..dataIdx] == Expansion(c)
    ensures data[..start] == old(data[..start])
    ensures ok ==> data[dataIdx..] == old(data[dataIdx..])
  {
    dataIdx := start;
    var usage: Usage := c.usageMin;
    while usage <= c.usageMax
      invariant start <= dataIdx <= data.Length
      invariant Ends(c) ==> (if c.usageMin <= c.usageMax
                             then usage == c.usageMin + (dataIdx - start) && usage <= c.usageMax + 1
                             else usage == c.usageMin && dataIdx == start)
      invariant Ends(c) ==> forall i | start <= i < dataIdx ::
                              data[i] == Value(c.usagePage, c.reportId, c.usageMin + (i - start))
      invariant forall i | 0 <= i < start || dataIdx <= i < data.Length :: data[i] == old(data[i])
      decreases data.Length - dataIdx
    {
      if dataIdx >= data.Length {
        return false, dataIdx;
      }
      data[dataIdx] := Value(c.usagePage, c.reportId, usage);
      dataIdx := dataIdx + 1;
      usage := (usage + 1) % USAGE_LIMIT;
    }
    ok := true;
    assert data[start..dataIdx] == Expansion(c);
    SameFrom(data[..], old(data[..]), dataIdx);
  }

  /** The slots from start up to dataIdx hold these, the others what they held. */
  ghost predicate FilledUpTo(data: seq<Slot>, all: seq<Slot>, start: nat, dataIdx: nat, done: seq<Slot>) {
    && |data| == |all| && start <= dataIdx == start + |done| <= |data|
    && data[..dataIdx] == all[..start] + done
    && data[dataIdx..] == all[dataIdx..]
  }

  /** The expansion pass of both sections. */
  method FillValues(data: array<Slot>, start: nat, caps: seq<ValueCap>) returns (ok: bool, dataIdx: nat)
    requires start <= data.Length
    modifies data
    ensures ok <==> AllEnd(caps) && start + |Expansions(caps)| <= data.Length
    ensures ok ==> FilledUpTo(data[..], old(data[..]), start, dataIdx, Expansions(caps))
  {
    ghost var all := data[..];
    dataIdx := start;
    var i := 0;
    assert caps[..0] == [];
    while i < |caps|
      invariant i <= |caps| && AllEnd(caps[..i])
      invariant FilledUpTo(data[..], all, start, dataIdx, Expansions(caps[..i]))
    {
      EndsNext(caps, i);
      ExpansionsNext(caps, i);
      ok, dataIdx := FillNext(data, dataIdx, caps[i], start, Expansions(caps[..i]), all);
      if !ok {
        return;
      }
      i := i + 1;
    }
    assert caps[..i] == caps;
    ok := true;
  }

  method FillNext(data: array<Slot>, from: nat, c: ValueCap, ghost start: nat, ghost done: seq<Slot>,
                  ghost all: seq<Slot>) returns (ok: bool, dataIdx: nat)
    requires FilledUpTo(data[..], all, start, from, done)
    modifies data
    ensures ok <==> Ends(c) && from + |Expansion(c)| <= |all|
    ensures ok ==> FilledUpTo(data[..], all, start, dataIdx, done + Expansion(c))
  {
    ok, dataIdx := FillOne(data, from, c);
    if ok {
      assert data[..dataIdx] == data[..from] + data[from..dataIdx];
      assert all[from..][dataIdx - from..] == all[dataIdx..];
    }
  }

  /** One capability: a range or a single usage. */
  method FillOne(data: array<Slot>, start: nat, c: ValueCap) returns (ok: bool, dataIdx: nat)
    requires start <= data.Length
    modifies data
    ensures ok <==> Ends(c) && start + |Expansion(c)| <= data.Length
    ensures ok ==> dataIdx == start + |Expansion(c)| && data[start..dataIdx] == Expansion(c)
    ensures data[..start] == old(data[..start])
    ensures ok ==> data[dataIdx..] == old(data[dataIdx..])
  {
    if c.isRange {
      ok, dataIdx := FillRange(data, start, c);
    } else {
      if start >= data.Length {
        return false, start;
      }
      data[start] := Value(c.usagePage, c.reportId, c.usage);
      ok, dataIdx := true, start + 1;
    }
  }

  lemma ExpansionsNext(caps: seq<ValueCap>, i: nat)
    requires i < |caps|
    ensures Expansions(caps[..i + 1]) == Expansions(caps[..i]) + Expansion(caps[i])
    ensures |Expansions(caps[..i + 1])| <= |Expansions(caps)|
  {
    assert caps[..i + 1][..i] == caps[..i];
    ExpansionsGrow(caps, i + 1);
  }

  lemma EndsNext(caps: seq<ValueCap>, i: nat)
    requires i < |caps| && AllEnd(caps[..i])
    ensures AllEnd(caps[..i + 1]) <==> Ends(caps[i])
    ensures AllEnd(caps) ==> Ends(caps[i])
  {
    assert forall j | 0 <= j < i :: caps[..i][j] == caps[..i + 1][j];
    assert caps[..i + 1][i] == caps[i];
  }

  lemma {:induction false} ExpansionsGrow(caps: seq<ValueCap>, i: nat)
    requires i <= |caps|
    ensures Expansions(caps[..i]) <= Expansions(caps)
    decreases |caps|
  {
    if i < |caps| {
      var n := |caps| - 1;
      assert caps[..n][..i] == caps[..i];
      ExpansionsGrow(caps[..n], i);
    } else {
      assert caps[..i] == caps;
    }
  }

  method FillButtons(data: array<Slot>, caps: seq<ButtonCap>)
    requires |caps| <= data.Length
    modifies data
    ensures data[..|caps|] == ButtonSlots(caps) && data[|caps|..] == old(data[|caps|..])
  {
    var i := 0;
    while i < |caps|
      invariant i <= |caps| && data[..i] == ButtonSlots(caps)[..i] && data[i..] == old(data[i..])
    {
      data[i] := ButtonSlot(caps[i]);
      i := i + 1;
    }
  }

  // ---------------------------------------------------------------------
  // The sections

  /** The buttons, then the values; slots that are left over stay as they are. */
  method FillSlots(data: array<Slot>, buttons: seq<ButtonCap>, values: seq<ValueCap>) returns (ok: bool)
    requires |buttons| <= data.Length && forall i | 0 <= i < data.Length :: data[i] == Unfilled
    modifies data
    ensures ok <==> AllEnd(values) && |buttons| + |Expansions(values)| <= data.Length
    ensures ok ==> data[..] == ButtonSlots(buttons) + Expansions(values)
                               + seq(data.Length - |buttons| - |Expansions(values)|, _ => Unfilled)
  {
    ghost var n, slots := |buttons|, data[..];
    FillButtons(data, buttons);
    ghost var all := data[..];
    assert forall i | n <= i < |all| :: all[i] == slots[n..][i - n] == Unfilled;
    assert all[..n] == ButtonSlots(buttons);
    var dataIdx;
    ok, dataIdx := FillValues(data, |buttons|, values);
    if ok {
      assert all[dataIdx..] == seq(|all| - dataIdx, _ => Unfilled);
      assert data[..] == data[..][..dataIdx] + data[..][dataIdx..];
    }
  }

  /** The input section succeeds exactly when every range has usages and ends
      before the last one; then all slots are filled, in order. */
  method FillInput(buttons: seq<ButtonCap>, values: seq<ValueCap>) returns (ok: bool, data: array<Slot>)
    requires |buttons| < USAGE_LIMIT && |values| < USAGE_LIMIT
    ensures ok <==> forall i | 0 <= i < |values| && values[i].isRange ::
                      values[i].usageMin <= values[i].usageMax < 0xFFFF
    ensures ok ==> data[..] == ButtonSlots(buttons) + Expansions(values)
  {
    var numValues;
    ok, numValues := CountInput(values);
    if !ok {
      data := new Slot[0];
      return;
    }
    WidthsBounded(values);
    var length := (|buttons| + numValues) % ULONG_LIMIT;
    data := new Slot[length](_ => Unfilled);
    assert forall i | 0 <= i < |values| :: Ordered(values[i]);
    ok := FillSlots(data, buttons, values);
  }

  /** How many slots the feature section asks for. */
  function FeatureSlots(values: seq<ValueCap>): nat {
    Widths(values) % ULONG_LIMIT
  }

  /** The feature section counts without a check. It succeeds when its count, in 32
      bits, is enough for the usages; slots it counted too many stay empty. */
  method FillFeature(buttons: seq<ButtonCap>, values: seq<ValueCap>) returns (ok: bool, data: array<Slot>)
    ensures ok <==>
            && (forall i | 0 <= i < |values| && values[i].isRange :: values[i].usageMax < 0xFFFF)
            && |buttons| + FeatureSlots(values) < ULONG_LIMIT
            && |Expansions(values)| <= FeatureSlots(values)
    ensures ok ==> data[..] == ButtonSlots(buttons) + Expansions(values)
                               + seq(FeatureSlots(values) - |Expansions(values)|, _ => Unfilled)
  {
    var numValues := CountFeature(values);
    if |buttons| + numValues >= ULONG_LIMIT {
      data := new Slot[0];
      return false, data;
    }
    data := new Slot[|buttons| + numValues](_ => Unfilled);
    ok := FillSlots(data, buttons, values);
  }

  /** It fills every slot exactly when no range ends more than one below its start;
      for ranges that have usages and end in time it succeeds, as the input section
      does. */
  lemma FeatureFull(buttons: seq<ButtonCap>, values: seq<ValueCap>)
    requires |buttons| < USAGE_LIMIT && |values| < USAGE_LIMIT
    ensures FeatureSlots(values) == |Expansions(values)| <==> AllCounted(values)
    ensures AllOrdered(values) ==>
              |buttons| + FeatureSlots(values) < ULONG_LIMIT && |Expansions(values)| == FeatureSlots(values)
  {
    WidthsBounded(values);
    WidthsExact(values);
    var w := Widths(values);
    if w < 0 {
      assert FeatureSlots(values) == w + ULONG_LIMIT;
    } else if w < ULONG_LIMIT {
      assert FeatureSlots(values) == w;
    }
    if AllOrdered(values) {
      forall i | 0 <= i < |values|
        ensures CountedRight(values[i])
      {
        assert Ordered(values[i]);
      }
    }
  }
}
