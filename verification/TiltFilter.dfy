/** ezTouchFilter: the report descriptor of a touch screen gets a block of tilt
    items, and every pen report gets the six bytes that this block declares. */
module TiltFilter {
  import opened BitArithmetic
  import opened HidItems

  const DIGITIZER: Byte := 13
  const TIP_PRESSURE: Byte := 48
  const ALTITUDE: Byte := 59

  // ---------------------------------------------------------------------
  // Where the block belongs

  /** Usage page in force after the items; 0 before any is set. */
  function PageAfter(items: seq<Item>): Byte {
    if items == [] then 0
    else
      var it := items[|items| - 1];
      if it.prefix == USAGE_PAGE && |it.data| == 1 then it.data[0] else PageAfter(items[..|items| - 1])
  }

  /** The usage that was named last. */
  function UsageAfter(items: seq<Item>): Byte {
    if items == [] then 0
    else
      var it := items[|items| - 1];
      if it.prefix == USAGE && |it.data| == 1 then it.data[0] else UsageAfter(items[..|items| - 1])
  }

  /** The digitizer usage is in force once item k has been read. */
  ghost predicate InForce(items: seq<Item>, usage: Byte, k: nat)
    requires k < |items|
  {
    PageAfter(items[..k + 1]) == DIGITIZER && UsageAfter(items[..k + 1]) == usage
  }

  /** Item k is the first one at which it is. */
  ghost predicate IsAnchor(items: seq<Item>, usage: Byte, k: nat) {
    k < |items| && InForce(items, usage, k) && forall j | 0 <= j < k :: !InForce(items, usage, j)
  }

  /** Item k is the first Input item behind that one. */
  ghost predicate IsInput(items: seq<Item>, usage: Byte, k: nat) {
    && k < |items| && items[k].prefix == INPUT
    && exists a | 0 <= a < k :: IsAnchor(items, usage, a) && forall j | a < j < k :: items[j].prefix != INPUT
  }

  ghost predicate HasInput(items: seq<Item>, usage: Byte) {
    exists k: nat :: IsInput(items, usage, k)
  }

  lemma AnchorUnique(items: seq<Item>, usage: Byte, j: nat, k: nat)
    requires IsAnchor(items, usage, j) && IsAnchor(items, usage, k)
    ensures j == k
  {
  }

  lemma InputUnique(items: seq<Item>, usage: Byte, j: nat, k: nat)
    requires IsInput(items, usage, j) && IsInput(items, usage, k)
    ensures j == k
  {
    var a :| 0 <= a < j && IsAnchor(items, usage, a) && forall i | a < i < j :: items[i].prefix != INPUT;
    var b :| 0 <= b < k && IsAnchor(items, usage, b) && forall i | b < i < k :: items[i].prefix != INPUT;
    AnchorUnique(items, usage, a, b);
  }

  /** The place behind Input item k: past a Pop that follows it directly. */
  function PlaceBehind(items: seq<Item>, k: nat): nat
    requires k < |items|
  {
    if k + 1 < |items| && items[k + 1].prefix == POP then k + 2 else k + 1
  }

  /** Item k is the later of the two inputs; the offset tells which. */
  ghost predicate IsLater(items: seq<Item>, k: nat, offset: nat) {
    if offset == 8 then
      IsInput(items, TIP_PRESSURE, k) && forall j: nat | IsInput(items, ALTITUDE, j) :: j <= k
    else
      offset == 9 && IsInput(items, ALTITUDE, k) && forall j: nat | IsInput(items, TIP_PRESSURE, j) :: j < k
  }

  /** The block goes before item m, and the report data at the offset: behind the
      later of the two inputs, or to the very front when there is neither. */
  ghost predicate IsPlace(items: seq<Item>, m: nat, offset: nat) {
    if HasInput(items, TIP_PRESSURE) || HasInput(items, ALTITUDE) then
      exists k: nat :: k < |items| && m == PlaceBehind(items, k) && IsLater(items, k, offset)
    else m == 0 && offset == 0
  }

  lemma PlaceUnique(items: seq<Item>, m: nat, offset: nat, m': nat, offset': nat)
    requires IsPlace(items, m, offset) && IsPlace(items, m', offset')
    ensures m == m' && offset == offset'
  {
    if HasInput(items, TIP_PRESSURE) || HasInput(items, ALTITUDE) {
      var k: nat :| k < |items| && m == PlaceBehind(items, k) && IsLater(items, k, offset);
      var k': nat :| k' < |items| && m' == PlaceBehind(items, k') && IsLater(items, k', offset');
      if offset == offset' {
        InputUnique(items, if offset == 8 then TIP_PRESSURE else ALTITUDE, k, k');
      }
    }
  }

  /** One item of a descriptor. */
  function Short(prefix: Byte, value: Byte): Item {
    Item(prefix, [value])
  }

  lemma AfterOne(items: seq<Item>, it: Item)
    ensures PageAfter(items + [it]) == if it.prefix == 5 && |it.data| == 1 then it.data[0] else PageAfter(items)
    ensures UsageAfter(items + [it]) == if it.prefix == 9 && |it.data| == 1 then it.data[0] else UsageAfter(items)
  {
    assert (items + [it])[..|items|] == items;
  }

  /** The pressure of a pen is usage 0x30 of page 13, and its altitude usage 0x3B:
      whichever of their two inputs is the last, the block goes behind that. */
  lemma PenPlaces()
    ensures IsPlace([Short(5, 13), Short(9, 0x30), Short(0x81, 2)], 3, 8)
    ensures IsPlace([Short(5, 13), Short(9, 0x3B), Short(0x81, 2)], 3, 9)
    ensures IsPlace(BOTH, 6, 9)
    ensures IsPlace([Short(5, 1), Short(9, 0x30), Short(0x81, 2)], 0, 0)
  {
    OnePlace(13, 0x30);
    OnePlace(13, 0x3B);
    OnePlace(1, 0x30);
    BothPlaces();
  }

  lemma OnePlace(page: Byte, usage: Byte)
    requires usage == 0x30 || usage == 0x3B
    ensures
      var items := [Short(5, page), Short(9, usage), Short(0x81, 2)];
      if page == 13 then IsPlace(items, 3, if usage == 0x30 then 8 else 9) else IsPlace(items, 0, 0)
  {
    var items := [Short(5, page), Short(9, usage), Short(0x81, 2)];
    AfterOne([], items[0]);
    AfterOne(items[..1], items[1]);
    AfterOne(items[..2], items[2]);
    assert items[..0] == [] && items[..0 + 1] == [] + [items[0]];
    assert items[..1 + 1] == items[..1] + [items[1]] && items[..2 + 1] == items[..2] + [items[2]];
    var other := if usage == 0x30 then ALTITUDE else TIP_PRESSURE;
    assert forall k | 0 <= k < 3 :: !InForce(items, other, k) && (page != 13 ==> !InForce(items, usage, k));
    assert !HasInput(items, other);
    if page == 13 {
      assert IsAnchor(items, usage, 1);
      assert IsInput(items, usage, 2);
      assert IsLater(items, 2, if usage == 0x30 then 8 else 9);
      assert PlaceBehind(items, 2) == 3;
    } else {
      assert !HasInput(items, usage);
    }
  }

  /** A pen with both. */
  const BOTH := [Short(5, 13), Short(9, 0x30), Short(0x81, 2), Short(9, 0x3B), Short(0x81, 2), Item(0xB4, [])]

  lemma BothPlaces()
    ensures IsPlace(BOTH, 6, 9)
  {
    var items := BOTH;
    AfterOne([], items[0]);
    AfterOne(items[..1], items[1]);
    AfterOne(items[..2], items[2]);
    AfterOne(items[..3], items[3]);
    AfterOne(items[..4], items[4]);
    AfterOne(items[..5], items[5]);
    assert items[..0 + 1] == [] + [items[0]] && items[..1 + 1] == items[..1] + [items[1]];
    assert items[..2 + 1] == items[..2] + [items[2]] && items[..3 + 1] == items[..3] + [items[3]];
    assert items[..4 + 1] == items[..4] + [items[4]] && items[..5 + 1] == items[..5] + [items[5]];
    assert IsAnchor(items, TIP_PRESSURE, 1) && IsAnchor(items, ALTITUDE, 3);
    assert IsInput(items, TIP_PRESSURE, 2) && IsInput(items, ALTITUDE, 4);
    forall j: nat | IsInput(items, TIP_PRESSURE, j)
      ensures j == 2
    {
      InputUnique(items, TIP_PRESSURE, j, 2);
    }
    assert IsLater(items, 4, 9);
  }

  // ---------------------------------------------------------------------
  // The scan

  /** The offset at which item k starts. */
  function OffsetOf(items: seq<Item>, k: nat): nat
    requires k <= |items|
  {
    |Bytes(items[..k])|
  }

  lemma OffsetNext(items: seq<Item>, k: nat)
    requires k < |items|
    ensures OffsetOf(items, k + 1) == OffsetOf(items, k) + 1 + |items[k].data|
  {
    assert items[..k + 1] == items[..k] + [items[k]];
    BytesSnoc(items[..k], items[k]);
  }

  lemma {:induction false} OffsetLess(items: seq<Item>, j: nat, k: nat)
    requires j < k <= |items|
    ensures OffsetOf(items, j) < OffsetOf(items, k)
    decreases k
  {
    OffsetNext(items, k - 1);
    if j < k - 1 {
      OffsetLess(items, j, k - 1);
    }
  }

  /** The three offsets the scan remembers for one usage; -1 is none. */
  datatype Tracker = Tracker(anchor: int, input: int, pop: int)

  function Track(t: Tracker, inForce: bool, prefix: Byte, offset: nat): Tracker {
    if t.anchor == -1 then if inForce then t.(anchor := offset) else t
    else if t.input == -1 then if prefix == INPUT then t.(input := offset) else t
    else if t.input + 2 == offset && prefix == POP then t.(pop := offset)
    else t
  }

  /** What the tracker says about the first n items. */
  ghost predicate Tracks(items: seq<Item>, n: nat, usage: Byte, t: Tracker)
    requires n <= |items|
  {
    if t.input != -1 then
      t.anchor != -1 && exists k | 0 <= k < n :: IsInput(items, usage, k) && PopFound(items, n, k, t)
    else
      && t.pop == -1
      && if t.anchor == -1 then NotInForce(items, n, usage)
         else exists a | 0 <= a < n :: IsAnchor(items, usage, a) && NoInputIn(items, a + 1, n)
  }

  ghost predicate NotInForce(items: seq<Item>, n: nat, usage: Byte)
    requires n <= |items|
  {
    forall k | 0 <= k < n :: !InForce(items, usage, k)
  }

  ghost predicate NoInputIn(items: seq<Item>, lo: nat, hi: nat)
    requires hi <= |items|
  {
    forall j | lo <= j < hi :: items[j].prefix != INPUT
  }

  ghost predicate PopFound(items: seq<Item>, n: nat, k: nat, t: Tracker)
    requires k < n <= |items|
  {
    && t.input == OffsetOf(items, k)
    && t.pop == if k + 1 < n && items[k + 1].prefix == POP then OffsetOf(items, k + 1) else -1
  }

  lemma InputOffset(items: seq<Item>, k: nat)
    requires WellFormed(items) && k < |items| && items[k].prefix == INPUT
    ensures OffsetOf(items, k + 1) == OffsetOf(items, k) + 2
  {
    OffsetNext(items, k);
  }

  lemma TrackSearching(items: seq<Item>, n: nat, usage: Byte, t: Tracker)
    requires n < |items| && Tracks(items, n, usage, t) && t.input == -1
    ensures Tracks(items, n + 1, usage, Track(t, InForce(items, usage, n), items[n].prefix, OffsetOf(items, n)))
  {
    var t' := Track(t, InForce(items, usage, n), items[n].prefix, OffsetOf(items, n));
    if t.anchor == -1 {
      if InForce(items, usage, n) {
        assert IsAnchor(items, usage, n);
      }
    } else {
      var a :| 0 <= a < n && IsAnchor(items, usage, a) && NoInputIn(items, a + 1, n);
      if items[n].prefix == INPUT {
        assert IsInput(items, usage, n);
        assert PopFound(items, n + 1, n, t');
      }
    }
  }

  lemma TrackFound(items: seq<Item>, n: nat, usage: Byte, t: Tracker)
    requires WellFormed(items) && n < |items| && Tracks(items, n, usage, t) && t.input != -1
    ensures Tracks(items, n + 1, usage, Track(t, InForce(items, usage, n), items[n].prefix, OffsetOf(items, n)))
  {
    var t' := Track(t, InForce(items, usage, n), items[n].prefix, OffsetOf(items, n));
    var k :| 0 <= k < n && IsInput(items, usage, k) && PopFound(items, n, k, t);
    InputOffset(items, k);
    if k + 1 < n {
      OffsetLess(items, k + 1, n);
    }
    assert PopFound(items, n + 1, k, t');
  }

  lemma TrackStep(items: seq<Item>, n: nat, usage: Byte, t: Tracker)
    requires WellFormed(items) && n < |items| && Tracks(items, n, usage, t)
    ensures Tracks(items, n + 1, usage, Track(t, InForce(items, usage, n), items[n].prefix, OffsetOf(items, n)))
  {
    if t.input == -1 {
      TrackSearching(items, n, usage, t);
    } else {
      TrackFound(items, n, usage, t);
    }
  }

  lemma NothingTracked(items: seq<Item>, usage: Byte, t: Tracker, k: nat, a: nat)
    requires Tracks(items, |items|, usage, t) && t.input == -1
    requires k < |items| && items[k].prefix == INPUT && a < k
    ensures !IsAnchor(items, usage, a)
  {
    if t.anchor != -1 {
      var b :| 0 <= b < |items| && IsAnchor(items, usage, b) && NoInputIn(items, b + 1, |items|);
      assert a != b;
    }
  }

  /** The place behind the input that the tracker remembers. */
  function Behind(t: Tracker): int {
    if t.pop == -1 then t.input + 2 else t.pop + 1
  }

  /** The tracker remembers item k. */
  ghost predicate Remembers(items: seq<Item>, usage: Byte, t: Tracker, k: nat) {
    && IsInput(items, usage, k)
    && t.input == OffsetOf(items, k) && Behind(t) == OffsetOf(items, PlaceBehind(items, k))
  }

  lemma Remembered(items: seq<Item>, usage: Byte, t: Tracker, k: nat)
    requires WellFormed(items) && k < |items| && IsInput(items, usage, k) && PopFound(items, |items|, k, t)
    ensures Remembers(items, usage, t, k)
  {
    InputOffset(items, k);
    if k + 1 < |items| && items[k + 1].prefix == POP {
      OffsetNext(items, k + 1);
    }
  }

  /** What the tracker says at the end of the scan. */
  lemma TrackResult(items: seq<Item>, usage: Byte, t: Tracker)
    requires WellFormed(items) && Tracks(items, |items|, usage, t)
    ensures t.input == -1 <==> !HasInput(items, usage)
    ensures t.input != -1 ==> exists k: nat :: Remembers(items, usage, t, k)
  {
    if t.input == -1 {
      forall k: nat
        ensures !IsInput(items, usage, k)
      {
        if k < |items| && items[k].prefix == INPUT {
          forall a | 0 <= a < k
            ensures !IsAnchor(items, usage, a)
          {
            NothingTracked(items, usage, t, k, a);
          }
        }
      }
    } else {
      var k :| 0 <= k < |items| && IsInput(items, usage, k) && PopFound(items, |items|, k, t);
      Remembered(items, usage, t, k);
    }
  }

  lemma ScanItem(items: seq<Item>, n: nat)
    requires WellFormed(items) && n < |items|
    ensures
      var b, at := Bytes(items), OffsetOf(items, n);
      && at + 1 + |items[n].data| <= |b| && at < |b|
      && b[at] == items[n].prefix
      && (|items[n].data| > 0 ==> at + 1 < |b| && b[at + 1] == items[n].data[0])
      && OffsetOf(items, n + 1) == at + 1 + DataSize(b[at])
  {
    assert items == items[..n] + [items[n]] + items[n + 1..];
    ItemAt(items[..n], items[n], items[n + 1..]);
    OffsetNext(items, n);
  }

  lemma InForceNext(items: seq<Item>, n: nat, page: Byte, usage: Byte)
    requires WellFormed(items) && n < |items|
    requires page == PageAfter(items[..n]) && usage == UsageAfter(items[..n])
    ensures
      var it := items[n];
      && (it.prefix == USAGE_PAGE ==>
            |it.data| == 1 && PageAfter(items[..n + 1]) == it.data[0] && UsageAfter(items[..n + 1]) == usage)
      && (it.prefix == USAGE ==>
            |it.data| == 1 && UsageAfter(items[..n + 1]) == it.data[0] && PageAfter(items[..n + 1]) == page)
      && (it.prefix != USAGE_PAGE && it.prefix != USAGE ==>
            PageAfter(items[..n + 1]) == page && UsageAfter(items[..n + 1]) == usage)
  {
    assert items[..n + 1][..n] == items[..n];
  }

  /** The place of the block, as offsets into the descriptor and into a report. */
  ghost predicate IsPlaceAt(items: seq<Item>, offset: nat, insertOffset: nat) {
    exists m: nat :: m <= |items| && offset == OffsetOf(items, m) && IsPlace(items, m, insertOffset)
  }

  /** The scan finds the place of the block, at an item boundary. */
  method ScanDescriptor(src: seq<Byte>, ghost items: seq<Item>) returns (offset: nat, insertOffset: nat)
    requires WellFormed(items) && Bytes(items) == src
    ensures IsPlaceAt(items, offset, insertOffset)
  {
    var tip, altitude := TrackInputs(src, items);
    offset, insertOffset := ChoosePlace(items, tip, altitude);
  }

  /** The loop over the items. */
  method TrackInputs(src: seq<Byte>, ghost items: seq<Item>) returns (tip: Tracker, altitude: Tracker)
    requires WellFormed(items) && Bytes(items) == src
    ensures Tracks(items, |items|, TIP_PRESSURE, tip) && Tracks(items, |items|, ALTITUDE, altitude)
  {
    var at := 0;
    var page: Byte, usage: Byte, second: Byte := 0, 0, 0;
    tip, altitude := Tracker(-1, -1, -1), Tracker(-1, -1, -1);
    ghost var n := 0;
    assert items[..0] == [];
    while at < |src|
      invariant n <= |items| && at == OffsetOf(items, n)
      invariant page == PageAfter(items[..n]) && usage == UsageAfter(items[..n])
      invariant Tracks(items, n, TIP_PRESSURE, tip) && Tracks(items, n, ALTITUDE, altitude)
      decreases |src| - at
    {
      assert n < |items| by {
        assert items[..|items|] == items;
      }
      ScanItem(items, n);
      InForceNext(items, n, page, usage);
      var first := src[at];
      var size := DataSize(first);
      if at + 1 < |src| {
        second := if 1 >= size + 1 then 0 else src[at + 1];
      }
      if first == USAGE_PAGE {
        page := second;
      } else if first == USAGE {
        usage := second;
      }
      TrackStep(items, n, TIP_PRESSURE, tip);
      TrackStep(items, n, ALTITUDE, altitude);
      tip := Track(tip, page == DIGITIZER && usage == TIP_PRESSURE, first, at);
      altitude := Track(altitude, page == DIGITIZER && usage == ALTITUDE, first, at);
      at := at + size + 1;
      n := n + 1;
    }
    assert items[..|items|] == items;
    if n < |items| {
      OffsetLess(items, n, |items|);
      assert false;
    }
  }

  /** The end of the scan: the later of the two inputs decides. */
  method ChoosePlace(ghost items: seq<Item>, tip: Tracker, altitude: Tracker)
    returns (offset: nat, insertOffset: nat)
    requires WellFormed(items)
    requires Tracks(items, |items|, TIP_PRESSURE, tip) && Tracks(items, |items|, ALTITUDE, altitude)
    ensures IsPlaceAt(items, offset, insertOffset)
  {
    TrackResult(items, TIP_PRESSURE, tip);
    TrackResult(items, ALTITUDE, altitude);
    offset, insertOffset := 0, 0;
    ghost var m: nat := 0;
    assert items[..0] == [];
    if altitude.input != -1 || tip.input != -1 {
      if altitude.input <= tip.input {
        ghost var k: nat :| Remembers(items, TIP_PRESSURE, tip, k);
        LaterInput(items, k, ALTITUDE, altitude);
        insertOffset, m := 8, PlaceBehind(items, k);
        offset := Behind(tip);
      } else {
        ghost var k: nat :| Remembers(items, ALTITUDE, altitude, k);
        LaterInput(items, k, TIP_PRESSURE, tip);
        insertOffset, m := 9, PlaceBehind(items, k);
        offset := Behind(altitude);
      }
    }
    assert m <= |items| && offset == OffsetOf(items, m) && IsPlace(items, m, insertOffset);
  }

  /** Offsets compare as item numbers do. */
  lemma LaterInput(items: seq<Item>, k: nat, other: Byte, t: Tracker)
    requires WellFormed(items) && k < |items| && Tracks(items, |items|, other, t)
    requires t.input <= OffsetOf(items, k)
    ensures forall j: nat | IsInput(items, other, j) :: j <= k && (t.input < OffsetOf(items, k) ==> j < k)
  {
    TrackResult(items, other, t);
    forall j: nat | IsInput(items, other, j)
      ensures j <= k && (t.input < OffsetOf(items, k) ==> j < k)
    {
      var i: nat :| Remembers(items, other, t, i);
      InputUnique(items, other, i, j);
      if k < j {
        OffsetLess(items, k, j);
      }
    }
  }
}
