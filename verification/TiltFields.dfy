/** What a parser reads out of the spliced reports with the tilted descriptor. */
module TiltFields {
  import opened CaseFold
  import opened BitArithmetic
  import opened HidItems
  import opened TiltBlock
  import opened TiltFilter
  import opened TiltSuffix
  import opened TiltDriver

  const PEN_REPORT: Byte := 7

  // ---------------------------------------------------------------------
  // Reading a report

  /** The main item declares bits of the input report with this id. */
  predicate InReport(m: MainItem, id: nat) {
    m.item.prefix / 4 == INPUT / 4 && m.globals.id == id
  }

  /** The bits declared for the report. */
  function BitsOf(mains: seq<MainItem>, id: nat): nat {
    if mains == [] then 0
    else (if InReport(mains[0], id) then MainBits(mains[0]) else 0) + BitsOf(mains[1..], id)
  }

  /** So many values of one size, one behind the other. */
  function Values(report: nat, pos: nat, size: nat, count: nat): (v: seq<nat>)
    ensures |v| == count
    decreases count
  {
    if count == 0 then [] else [Field(report, pos, size)] + Values(report, pos + size, size, count - 1)
  }

  /** The report read as the main items say, from a bit on: the values of each
      item of this report, in order. */
  function Fields(mains: seq<MainItem>, id: nat, report: nat, pos: nat): seq<seq<nat>> {
    if mains == [] then []
    else if InReport(mains[0], id) then
      [Values(report, pos, mains[0].globals.size, mains[0].globals.count)]
      + Fields(mains[1..], id, report, pos + MainBits(mains[0]))
    else Fields(mains[1..], id, report, pos)
  }

  function Count(mains: seq<MainItem>, id: nat): nat {
    if mains == [] then 0 else (if InReport(mains[0], id) then 1 else 0) + Count(mains[1..], id)
  }

  lemma {:induction false} FieldsCount(mains: seq<MainItem>, id: nat, report: nat, pos: nat)
    ensures |Fields(mains, id, report, pos)| == Count(mains, id)
  {
    if mains != [] {
      FieldsCount(mains[1..], id, report, pos + MainBits(mains[0]));
      FieldsCount(mains[1..], id, report, pos);
    }
  }

  lemma {:induction false} BitsOfConcat(a: seq<MainItem>, b: seq<MainItem>, id: nat)
    ensures BitsOf(a + b, id) == BitsOf(a, id) + BitsOf(b, id)
  {
    if a == [] {
      assert a + b == b;
    } else {
      assert (a + b)[1..] == a[1..] + b;
      BitsOfConcat(a[1..], b, id);
    }
  }

  lemma {:induction false} FieldsConcat(a: seq<MainItem>, b: seq<MainItem>, id: nat, report: nat, pos: nat)
    ensures Fields(a + b, id, report, pos) == Fields(a, id, report, pos) + Fields(b, id, report, pos + BitsOf(a, id))
  {
    if a == [] {
      assert a + b == b;
    } else {
      assert (a + b)[1..] == a[1..] + b;
      FieldsConcat(a[1..], b, id, report, pos + MainBits(a[0]));
      FieldsConcat(a[1..], b, id, report, pos);
    }
  }

  lemma OneValueMore(size: nat, count: nat)
    ensures ReportBits(size, count + 1) == size + ReportBits(size, count) && ReportBits(size, 0) == 0
  {
  }

  /** The bits of the first report, moved by a distance, are those of the second. */
  ghost predicate Agree(x: nat, y: nat, pos: nat, bits: nat, shift: nat) {
    forall p: nat, w: nat | pos <= p && p + w <= pos + bits :: Field(x, p + shift, w) == Field(y, p, w)
  }

  lemma {:induction false} ValuesMoved(x: nat, y: nat, pos: nat, size: nat, count: nat, shift: nat)
    requires Agree(x, y, pos, ReportBits(size, count), shift)
    ensures Values(x, pos + shift, size, count) == Values(y, pos, size, count)
    decreases count
  {
    if count > 0 {
      OneValueMore(size, count - 1);
      assert Field(x, pos + shift, size) == Field(y, pos, size);
      ValuesMoved(x, y, pos + size, size, count - 1, shift);
    }
  }

  /** Then they are read alike. */
  lemma {:induction false} FieldsMoved(mains: seq<MainItem>, id: nat, x: nat, y: nat, pos: nat, shift: nat)
    requires Agree(x, y, pos, BitsOf(mains, id), shift)
    ensures Fields(mains, id, x, pos + shift) == Fields(mains, id, y, pos)
  {
    if mains != [] {
      var w := if InReport(mains[0], id) then MainBits(mains[0]) else 0;
      assert BitsOf(mains, id) == w + BitsOf(mains[1..], id);
      if InReport(mains[0], id) {
        ValuesMoved(x, y, pos, mains[0].globals.size, mains[0].globals.count, shift);
      }
      FieldsMoved(mains[1..], id, x, y, pos + w, shift);
    }
  }

  // ---------------------------------------------------------------------
  // Where bits of a report are after the splice

  /** Fields below an insertion stay. */
  lemma FieldBelow(low: seq<Byte>, high: seq<Byte>, pos: nat, width: nat)
    requires pos + width <= 8 * |low|
    ensures Field(LittleEndian(low + high), pos, width) == Field(LittleEndian(low), pos, width)
  {
    LittleEndianSplit(low, high);
    WindowField(LittleEndian(low + high), 0, 8 * |low|, pos, width);
  }

  /** Fields above one move up. */
  lemma FieldAbove(low: seq<Byte>, high: seq<Byte>, pos: nat, width: nat)
    ensures Field(LittleEndian(low + high), 8 * |low| + pos, width) == Field(LittleEndian(high), pos, width)
  {
    LittleEndianSplit(low, high);
    HighHigh(LittleEndian(low + high), 8 * |low|, pos);
  }

  lemma FieldBetween(low: seq<Byte>, mid: seq<Byte>, high: seq<Byte>, i: nat)
    requires i + 2 <= |mid|
    ensures Field(LittleEndian(low + mid + high), 8 * (|low| + i), 16) == LittleEndian(mid[i..i + 2])
  {
    var all := low + mid + high;
    LittleEndianWindow(all, |low| + i, 2);
    assert all[|low| + i..|low| + i + 2] == mid[i..i + 2];
  }

  /** The three numbers that the six bytes stand for. */
  function TiltValues(tilt: seq<Byte>): seq<seq<nat>>
    requires |tilt| == 6
  {
    [[LittleEndian(tilt[0..2])], [LittleEndian(tilt[2..4])], [LittleEndian(tilt[4..6])]]
  }

  /** The tilt that a parser reads is that of the latest write: bytes 8 to 13 as
      three numbers, the low byte of each first; zero before any write. */
  lemma LatestTilt(writes: seq<seq<Byte>>, w: seq<Byte>)
    requires |w| == 14 && forall x | x in writes :: |x| == 14
    ensures
      var n: seq<nat> := w;
      TiltValues(TiltBytes(writes + [w])) == [[256 * n[9] + n[8]], [256 * n[11] + n[10]], [256 * n[13] + n[12]]]
    ensures TiltValues(TiltBytes([])) == [[0], [0], [0]]
  {
    var tilt := TiltBytes(writes + [w]);
    TwoBytes(tilt[0..2]);
    TwoBytes(tilt[2..4]);
    TwoBytes(tilt[4..6]);
    TwoBytes(NO_TILT[0..2]);
    TwoBytes(NO_TILT[2..4]);
    TwoBytes(NO_TILT[4..6]);
  }

  lemma TwoBytes(b: seq<Byte>)
    requires |b| == 2
    ensures
      var n: seq<nat> := b;
      LittleEndian(b) == 256 * n[1] + n[0]
  {
    assert b[1..][1..] == [];
    assert LittleEndian(b[1..]) == b[1];
  }

  /** Three values of 16 bits. */
  function Triple(x: nat, pos: nat): seq<seq<nat>> {
    [[Field(x, pos, 16)], [Field(x, pos + 16, 16)], [Field(x, pos + 32, 16)]]
  }

  lemma OneField(m: MainItem, id: nat, x: nat, pos: nat)
    requires m.globals.count == 1
    ensures Fields([m], id, x, pos) == if InReport(m, id) then [[Field(x, pos, m.globals.size)]] else []
    ensures BitsOf([m], id) == if InReport(m, id) then m.globals.size else 0
  {
    assert [m][1..] == [];
    OneValue(x, pos, m.globals.size);
    if InReport(m, id) {
      var v := Values(x, pos, m.globals.size, 1);
      assert Fields([m], id, x, pos) == [v] + Fields([], id, x, pos + MainBits(m)) == [v];
    }
  }

  lemma OneValue(x: nat, pos: nat, size: nat)
    ensures Values(x, pos, size, 1) == [Field(x, pos, size)]
  {
    assert Values(x, pos, size, 1) == [Field(x, pos, size)] + Values(x, pos + size, size, 0);
  }

  lemma TiltInputFields(g: Globals, id: nat, x: nat, pos: nat)
    ensures Fields(TiltInputs(g, []), id, x, pos) == if g.id == id then Triple(x, pos) else []
    ensures BitsOf(TiltInputs(g, []), id) == if g.id == id then 48 else 0
  {
    var inputs := TiltInputs(g, []);
    ThreeFields(inputs[0], inputs[1], inputs[2], id, x, pos);
  }

  lemma ThreeFields(a: MainItem, b: MainItem, c: MainItem, id: nat, x: nat, pos: nat)
    requires a.globals.size == b.globals.size == c.globals.size == 16
    requires a.globals.count == b.globals.count == c.globals.count == 1
    requires InReport(a, id) == InReport(b, id) == InReport(c, id)
    ensures Fields([a] + ([b] + [c]), id, x, pos) == if InReport(a, id) then Triple(x, pos) else []
    ensures BitsOf([a] + ([b] + [c]), id) == if InReport(a, id) then 48 else 0
  {
    FieldsConcat([a], [b] + [c], id, x, pos);
    BitsOfConcat([a], [b] + [c], id);
    OneField(a, id, x, pos);
    var next := pos + BitsOf([a], id);
    FieldsConcat([b], [c], id, x, next);
    BitsOfConcat([b], [c], id);
    OneField(b, id, x, next);
    OneField(c, id, x, next + BitsOf([b], id));
  }

  // ---------------------------------------------------------------------
  // The same layout

  /** The same number of values of the same size. */
  predicate SameValues(a: Globals, b: Globals) {
    a.count == b.count && (a.count == 0 || a.size == b.size)
  }

  /** Alike main items lay out every report with an id in the same way. */
  predicate SameLayout(a: seq<MainItem>, b: seq<MainItem>) {
    && Alike(a, b)
    && forall i | 0 <= i < |a| && a[i].item.prefix / 4 == INPUT / 4 && a[i].globals.id < 256 ::
         SameValues(a[i].globals, b[i].globals)
  }

  lemma AlikeRest(a: seq<MainItem>, b: seq<MainItem>)
    requires Alike(a, b) && a != []
    ensures Alike(a[1..], b[1..]) && AlikeItems(a[0], b[0])
    ensures SameLayout(a, b) ==> SameLayout(a[1..], b[1..])
  {
    forall i | 0 <= i < |a[1..]|
      ensures AlikeItems(a[1..][i], b[1..][i])
    {
      assert AlikeItems(a[i + 1], b[i + 1]);
    }
    if SameLayout(a, b) {
      forall i | 0 <= i < |a[1..]| && a[1..][i].item.prefix / 4 == INPUT / 4 && a[1..][i].globals.id < 256
        ensures SameValues(a[1..][i].globals, b[1..][i].globals)
      {
        assert SameValues(a[i + 1].globals, b[i + 1].globals);
      }
    }
  }

  lemma {:induction false} AlikeCount(a: seq<MainItem>, b: seq<MainItem>, id: nat)
    requires Alike(a, b)
    ensures Count(a, id) == Count(b, id)
  {
    if a != [] {
      AlikeRest(a, b);
      AlikeCount(a[1..], b[1..], id);
    }
  }

  lemma {:induction false} SameLayoutReads(a: seq<MainItem>, b: seq<MainItem>, id: Byte, x: nat, pos: nat)
    requires SameLayout(a, b)
    ensures Fields(a, id, x, pos) == Fields(b, id, x, pos)
  {
    if a != [] {
      AlikeRest(a, b);
      var w := if InReport(a[0], id) then MainBits(a[0]) else 0;
      if InReport(a[0], id) {
        assert SameValues(a[0].globals, b[0].globals);
        OneValueMore(a[0].globals.size, 0);
        OneValueMore(b[0].globals.size, 0);
        assert MainBits(a[0]) == MainBits(b[0]);
      }
      SameLayoutReads(a[1..], b[1..], id, x, pos + w);
    }
  }

  // ---------------------------------------------------------------------
  // Theorem

  /** With the tilted descriptor, a report that went through the read path gives
      the values it had, and, if it is a pen report, the tilt in their midst. */
  predicate ReadsTilt(before: seq<MainItem>, inputs: seq<MainItem>, now: seq<MainItem>, behind: seq<MainItem>,
                      offset: nat, report: seq<Byte>, tilt: seq<Byte>)
    requires report != [] && (report[0] == PEN_REPORT ==> offset <= |report|) && |tilt| == 6
  {
    var id, x := report[0], LittleEndian(report);
    Fields(before + inputs + now, id, LittleEndian(WithTilt(report, offset, tilt)), 8) ==
    Fields(before, id, x, 8) + (if id == PEN_REPORT then TiltValues(tilt) else [])
    + Fields(behind, id, x, 8 + BitsOf(before, id))
  }

  lemma SplicedFields(before: seq<MainItem>, g: Globals, behind: seq<MainItem>, id: nat, x: nat)
    ensures
      var inputs := TiltInputs(g, []);
      var pos := 8 + BitsOf(before, id);
      Fields(before + inputs + behind, id, x, 8) ==
      Fields(before, id, x, 8) + Fields(inputs, id, x, pos) + Fields(behind, id, x, pos + if g.id == id then 48 else 0)
  {
    var inputs := TiltInputs(g, []);
    FieldsConcat(before + inputs, behind, id, x, 8);
    FieldsConcat(before, inputs, id, x, 8);
    BitsOfConcat(before, inputs, id);
    TiltInputFields(g, id, x, 8 + BitsOf(before, id));
  }

  /** Where the bits in front are those of the bytes in front and the layout behind
      is the same, it does. */
  lemma FitReads(before: seq<MainItem>, g: Globals, now: seq<MainItem>, behind: seq<MainItem>, offset: nat,
                 report: seq<Byte>, tilt: seq<Byte>)
    requires report != [] && (report[0] == PEN_REPORT ==> offset <= |report|) && |tilt| == 6
    requires g.id == PEN_REPORT && 8 + BitsOf(before, PEN_REPORT) == 8 * offset && SameLayout(now, behind)
    ensures ReadsTilt(before, TiltInputs(g, []), now, behind, offset, report, tilt)
  {
    if report[0] == PEN_REPORT {
      assert report == report[..offset] + report[offset..];
      PenReads(before, g, now, behind, report[..offset], tilt, report[offset..]);
    } else {
      OtherReads(before, g, now, behind, report[0], LittleEndian(report));
    }
  }

  lemma OtherReads(before: seq<MainItem>, g: Globals, now: seq<MainItem>, behind: seq<MainItem>, id: Byte, x: nat)
    requires g.id != id && SameLayout(now, behind)
    ensures Fields(before + TiltInputs(g, []) + now, id, x, 8) ==
            Fields(before, id, x, 8) + [] + Fields(behind, id, x, 8 + BitsOf(before, id))
  {
    SplicedFields(before, g, now, id, x);
    TiltInputFields(g, id, x, 8 + BitsOf(before, id));
    SameLayoutReads(now, behind, id, x, 8 + BitsOf(before, id));
  }

  lemma PenReads(before: seq<MainItem>, g: Globals, now: seq<MainItem>, behind: seq<MainItem>,
                 low: seq<Byte>, tilt: seq<Byte>, high: seq<Byte>)
    requires |tilt| == 6 && g.id == PEN_REPORT && 8 + BitsOf(before, PEN_REPORT) == 8 * |low| && SameLayout(now, behind)
    ensures
      var x, pos := LittleEndian(low + high), 8 * |low|;
      Fields(before + TiltInputs(g, []) + now, PEN_REPORT, LittleEndian(low + tilt + high), 8) ==
      Fields(before, PEN_REPORT, x, 8) + TiltValues(tilt) + Fields(behind, PEN_REPORT, x, pos)
  {
    PenTilt(before, g, now, low, tilt, high);
    NowReads(now, behind, low, tilt, high);
    FrontReads(before, low, tilt, high);
  }

  lemma PenTilt(before: seq<MainItem>, g: Globals, now: seq<MainItem>, low: seq<Byte>, tilt: seq<Byte>, high: seq<Byte>)
    requires |tilt| == 6 && g.id == PEN_REPORT && 8 + BitsOf(before, PEN_REPORT) == 8 * |low|
    ensures
      var y := LittleEndian(low + tilt + high);
      Fields(before + TiltInputs(g, []) + now, PEN_REPORT, y, 8) ==
      Fields(before, PEN_REPORT, y, 8) + TiltValues(tilt) + Fields(now, PEN_REPORT, y, 8 * |low| + 48)
  {
    PenFields(before, g, now, LittleEndian(low + tilt + high), 8 * |low|);
    MiddleReads(low, tilt, high);
  }

  lemma PenFields(before: seq<MainItem>, g: Globals, now: seq<MainItem>, y: nat, pos: nat)
    requires g.id == PEN_REPORT && 8 + BitsOf(before, PEN_REPORT) == pos
    ensures Fields(before + TiltInputs(g, []) + now, PEN_REPORT, y, 8) ==
            Fields(before, PEN_REPORT, y, 8) + Triple(y, pos) + Fields(now, PEN_REPORT, y, pos + 48)
  {
    SplicedFields(before, g, now, PEN_REPORT, y);
    TiltInputFields(g, PEN_REPORT, y, pos);
  }

  lemma NowReads(now: seq<MainItem>, behind: seq<MainItem>, low: seq<Byte>, tilt: seq<Byte>, high: seq<Byte>)
    requires |tilt| == 6 && SameLayout(now, behind)
    ensures Fields(now, PEN_REPORT, LittleEndian(low + tilt + high), 8 * |low| + 48) ==
            Fields(behind, PEN_REPORT, LittleEndian(low + high), 8 * |low|)
  {
    SameLayoutReads(now, behind, PEN_REPORT, LittleEndian(low + tilt + high), 8 * |low| + 48);
    BehindReads(behind, low, tilt, high);
  }

  lemma FrontReads(before: seq<MainItem>, low: seq<Byte>, tilt: seq<Byte>, high: seq<Byte>)
    requires 8 + BitsOf(before, PEN_REPORT) == 8 * |low|
    ensures Fields(before, PEN_REPORT, LittleEndian(low + tilt + high), 8) ==
            Fields(before, PEN_REPORT, LittleEndian(low + high), 8)
  {
    var y, x := LittleEndian(low + tilt + high), LittleEndian(low + high);
    assert low + tilt + high == low + (tilt + high);
    forall p: nat, w: nat | 8 <= p && p + w <= 8 + BitsOf(before, PEN_REPORT)
      ensures Field(y, p + 0, w) == Field(x, p, w)
    {
      FieldBelow(low, tilt + high, p, w);
      FieldBelow(low, high, p, w);
    }
    assert Agree(y, x, 8, BitsOf(before, PEN_REPORT), 0);
    FieldsMoved(before, PEN_REPORT, y, x, 8, 0);
  }

  lemma MiddleReads(low: seq<Byte>, tilt: seq<Byte>, high: seq<Byte>)
    requires |tilt| == 6
    ensures
      var y, pos := LittleEndian(low + tilt + high), 8 * |low|;
      Triple(y, pos) == TiltValues(tilt)
  {
    FieldBetween(low, tilt, high, 0);
    FieldBetween(low, tilt, high, 2);
    FieldBetween(low, tilt, high, 4);
  }

  lemma BehindReads(behind: seq<MainItem>, low: seq<Byte>, tilt: seq<Byte>, high: seq<Byte>)
    requires |tilt| == 6
    ensures Fields(behind, PEN_REPORT, LittleEndian(low + tilt + high), 8 * |low| + 48) ==
            Fields(behind, PEN_REPORT, LittleEndian(low + high), 8 * |low|)
  {
    var y, x := LittleEndian(low + tilt + high), LittleEndian(low + high);
    forall p: nat, w: nat | 8 * |low| <= p && p + w <= 8 * |low| + BitsOf(behind, PEN_REPORT)
      ensures Field(y, p + 48, w) == Field(x, p, w)
    {
      var d := p - 8 * |low|;
      FieldAbove(low + tilt, high, d, w);
      FieldAbove(low, high, d, w);
    }
    assert Agree(y, x, 8 * |low|, BitsOf(behind, PEN_REPORT), 48);
    FieldsMoved(behind, PEN_REPORT, y, x, 8 * |low|, 48);
  }

  // Elsewhere it does not: the first tilt value is 1, and nothing else is set
  // in the report but its id.

  function Blank(n: nat): (z: seq<Byte>)
    ensures |z| == n && forall i | 0 <= i < n :: z[i] == 0
  {
    if n == 0 then [] else Blank(n - 1) + [0]
  }

  const ONE_TILT: seq<Byte> := [1] + [0, 0, 0, 0, 0]

  function PenReport(offset: nat): seq<Byte>
    requires offset > 0
  {
    [PEN_REPORT] + Blank(offset - 1)
  }

  lemma SplicedNumber(offset: nat)
    requires offset > 0
    ensures PenReport(offset)[..offset] == PenReport(offset) && PenReport(offset)[offset..] == []
    ensures LittleEndian(WithTilt(PenReport(offset), offset, ONE_TILT)) == 7 + Shl(1, 8 * offset)
    ensures LittleEndian(ONE_TILT[0..2]) == 1
  {
    var report := PenReport(offset);
    LittleEndianConcat([PEN_REPORT], Blank(offset - 1));
    LittleEndianZeros(Blank(offset - 1));
    ZeroShl(8);
    SmallNumber(PEN_REPORT);
    assert report + ONE_TILT + [] == report + ONE_TILT;
    LittleEndianConcat(report, ONE_TILT);
    LittleEndianConcat([1], [0, 0, 0, 0, 0]);
    LittleEndianZeros([0, 0, 0, 0, 0]);
    SmallNumber(1);
    assert ONE_TILT[0..2] == [1] + [0];
    LittleEndianConcat([1], [0]);
    LittleEndianZeros([0]);
  }

  lemma SmallNumber(b: Byte)
    ensures LittleEndian([b]) == b
  {
    assert [b][1..] == [];
  }

  lemma NotBelow(r: nat, n: nat, pos: nat, width: nat)
    requires r < Pow2(pos) && pos < n && width > 0
    ensures Field(r + Shl(1, n), pos, width) != 1
  {
    var k := n - pos;
    ShlShl(1, k, pos);
    Digits(r, Shl(1, k), pos);
    LowTwice(Shl(1, k - 1), width);
  }

  lemma NotAbove(n: nat, pos: nat)
    requires 8 <= n < pos
    ensures Field(7 + Shl(1, n), pos, 16) != 1
  {
    BytePower();
    Pow2Monotone(8, n);
    assert Pow2(1) == 2;
    JoinBound(7, 1, n, 1);
    Pow2Monotone(n + 1, pos);
    LowOfSmall(7 + Shl(1, n), pos);
    LowOfZero(16);
  }

  /** Only at its own place a single bit reads as 1. */
  lemma OnlyThere(n: nat, pos: nat)
    requires 8 <= pos != n && 8 <= n
    ensures Field(7 + Shl(1, n), pos, 16) != 1
  {
    if pos < n {
      BytePower();
      Pow2Monotone(8, pos);
      NotBelow(7, n, pos, 16);
    } else {
      NotAbove(n, pos);
    }
  }

  lemma FirstDiffers(offset: nat, pos: nat)
    requires offset > 0 && 8 <= pos != 8 * offset
    ensures Triple(LittleEndian(WithTilt(PenReport(offset), offset, ONE_TILT)), pos)[0] != TiltValues(ONE_TILT)[0]
  {
    SplicedNumber(offset);
    OnlyThere(8 * offset, pos);
  }

  lemma MisfitReads(before: seq<MainItem>, g: Globals, now: seq<MainItem>, behind: seq<MainItem>, offset: nat)
    requires offset > 0 && Alike(now, behind) && g.id == PEN_REPORT && 8 + BitsOf(before, PEN_REPORT) != 8 * offset
    ensures !ReadsTilt(before, TiltInputs(g, []), now, behind, offset, PenReport(offset), ONE_TILT)
  {
    var report := PenReport(offset);
    var x, y := LittleEndian(report), LittleEndian(WithTilt(report, offset, ONE_TILT));
    var pos := 8 + BitsOf(before, PEN_REPORT);
    PenFields(before, g, now, y, pos);
    FieldsCount(before, PEN_REPORT, x, 8);
    FieldsCount(before, PEN_REPORT, y, 8);
    FirstDiffers(offset, pos);
    DifferAt(Fields(before, PEN_REPORT, y, 8), Triple(y, pos), Fields(now, PEN_REPORT, y, pos + 48),
             Fields(before, PEN_REPORT, x, 8), TiltValues(ONE_TILT), Fields(behind, PEN_REPORT, x, pos));
  }

  lemma DifferAt(a: seq<seq<nat>>, b: seq<seq<nat>>, c: seq<seq<nat>>,
                 a': seq<seq<nat>>, b': seq<seq<nat>>, c': seq<seq<nat>>)
    requires |a| == |a'| && b != [] && b' != [] && b[0] != b'[0]
    ensures a + b + c != a' + b' + c'
  {
    assert (a + b + c)[|a|] == b[0] && (a' + b' + c')[|a|] == b'[0];
  }

  /** Outside the pen report the tilt has no fields. */
  lemma ElsewhereReads(before: seq<MainItem>, g: Globals, now: seq<MainItem>, behind: seq<MainItem>, offset: nat)
    requires Alike(now, behind) && g.id != PEN_REPORT
    ensures !ReadsTilt(before, TiltInputs(g, []), now, behind, offset, PenReport(offset + 1), ONE_TILT)
  {
    var report := PenReport(offset + 1);
    var x, y := LittleEndian(report), LittleEndian(WithTilt(report, offset, ONE_TILT));
    var pos := 8 + BitsOf(before, PEN_REPORT);
    SplicedFields(before, g, now, PEN_REPORT, y);
    TiltInputFields(g, PEN_REPORT, y, pos);
    FieldsCount(before, PEN_REPORT, x, 8);
    FieldsCount(before, PEN_REPORT, y, 8);
    FieldsCount(behind, PEN_REPORT, x, pos);
    FieldsCount(now, PEN_REPORT, y, pos);
    AlikeCount(now, behind, PEN_REPORT);
  }

  // Nor does it where the layout behind is another: a report of ones shows the
  // size of every value.

  function Ones(n: nat): (b: seq<Byte>)
    ensures |b| == n && forall i | 0 <= i < n :: b[i] == 0xFF
  {
    if n == 0 then [] else Ones(n - 1) + [0xFF]
  }

  lemma {:induction false} OnesNumber(n: nat)
    ensures LittleEndian(Ones(n)) == Pow2(8 * n) - 1
  {
    if n > 0 {
      OnesNumber(n - 1);
      LittleEndianConcat(Ones(n - 1), [0xFF]);
      SmallNumber(0xFF);
      BytePower();
      Pow2Add(8, 8 * (n - 1));
      ShlAdd(0xFF, 1, 8 * (n - 1));
      Pow2Add(0, 8 * (n - 1));
    }
  }

  lemma HalfOfOnes(p: nat)
    requires p > 0
    ensures (2 * p - 1) / 2 == p - 1 && (2 * p - 1) % 2 == 1
  {
  }

  lemma {:induction false} HighOfOnes(n: nat, k: nat)
    requires k <= n
    ensures High(Pow2(n) - 1, k) == Pow2(n - k) - 1
  {
    if k > 0 {
      HalfOfOnes(Pow2(n - 1));
      HighOfOnes(n - 1, k - 1);
    }
  }

  lemma {:induction false} LowOfOnes(n: nat, k: nat)
    requires k <= n
    ensures Low(Pow2(n) - 1, k) == Pow2(k) - 1
  {
    if k > 0 {
      HalfOfOnes(Pow2(n - 1));
      LowOfOnes(n - 1, k - 1);
    }
  }

  /** From bit 8 on, up to a limit, all bits are set. */
  ghost predicate AllOnes(x: nat, limit: nat) {
    forall p: nat, w: nat | 8 <= p && p + w <= limit :: Field(x, p, w) == Pow2(w) - 1
  }

  lemma OnesReport(id: Byte, n: nat, limit: nat)
    requires limit <= 8 + 8 * n
    ensures AllOnes(LittleEndian([id] + Ones(n)), limit)
  {
    var x := LittleEndian([id] + Ones(n));
    forall p: nat, w: nat | 8 <= p && p + w <= limit
      ensures Field(x, p, w) == Pow2(w) - 1
    {
      FieldAbove([id], Ones(n), p - 8, w);
      OnesNumber(n);
      HighOfOnes(8 * n, p - 8);
      LowOfOnes(8 * n - (p - 8), w);
    }
  }

  lemma {:induction false} Pow2Injective(a: nat, b: nat)
    requires Pow2(a) == Pow2(b)
    ensures a == b
  {
    if a > 0 && b > 0 {
      Pow2Injective(a - 1, b - 1);
    }
  }

  /** A first value of ones tells its size. */
  lemma ValuesTell(x: nat, y: nat, p: nat, q: nat, g: Globals, h: Globals, limit: nat)
    requires AllOnes(x, limit) && AllOnes(y, limit) && 8 <= p && 8 <= q
    requires p + ReportBits(g.size, g.count) <= limit && q + ReportBits(h.size, h.count) <= limit
    requires Values(x, p, g.size, g.count) == Values(y, q, h.size, h.count)
    ensures SameValues(g, h)
  {
    assert |Values(x, p, g.size, g.count)| == g.count && |Values(y, q, h.size, h.count)| == h.count;
    if g.count > 0 {
      OneValueMore(g.size, g.count - 1);
      OneValueMore(h.size, h.count - 1);
      assert Values(x, p, g.size, g.count)[0] == Field(x, p, g.size);
      assert Values(y, q, h.size, h.count)[0] == Field(y, q, h.size);
      Pow2Injective(g.size, h.size);
    }
  }

  lemma {:induction false} FieldsTell(a: seq<MainItem>, b: seq<MainItem>, id: nat, x: nat, y: nat, p: nat, q: nat,
                                      limit: nat, i: nat)
    requires AllOnes(x, limit) && AllOnes(y, limit) && 8 <= p && 8 <= q && Alike(a, b)
    requires p + BitsOf(a, id) <= limit && q + BitsOf(b, id) <= limit
    requires Fields(a, id, x, p) == Fields(b, id, y, q)
    requires i < |a| && InReport(a[i], id)
    ensures SameValues(a[i].globals, b[i].globals)
  {
    AlikeRest(a, b);
    var w, v := if InReport(a[0], id) then MainBits(a[0]) else 0, if InReport(b[0], id) then MainBits(b[0]) else 0;
    var rest, rest' := Fields(a[1..], id, x, p + w), Fields(b[1..], id, y, q + v);
    if InReport(a[0], id) {
      assert Fields(a, id, x, p)[0] == Fields(b, id, y, q)[0];
      assert rest == Fields(a, id, x, p)[1..] && rest' == Fields(b, id, y, q)[1..];
      ValuesTell(x, y, p, q, a[0].globals, b[0].globals, limit);
    }
    if i > 0 {
      FieldsTell(a[1..], b[1..], id, x, y, p + w, q + v, limit, i - 1);
    }
  }

  lemma SplicedOnes(id: Byte, n: nat, offset: nat)
    requires 0 < offset <= n + 1
    ensures WithTilt([id] + Ones(n), offset, Ones(6)) == [id] + Ones(if id == PEN_REPORT then n + 6 else n)
  {
  }

  lemma SuffixEqual(a: seq<seq<nat>>, b: seq<seq<nat>>, a': seq<seq<nat>>, b': seq<seq<nat>>)
    requires |a| == |a'| && a + b == a' + b'
    ensures b == b'
  {
    assert (a + b)[|a|..] == b && (a' + b')[|a'|..] == b';
  }

  lemma OnesShow(now: seq<MainItem>, behind: seq<MainItem>, id: Byte, n: nat, k: nat, p: nat, q: nat, i: nat)
    requires Alike(now, behind) && 8 <= p && 8 <= q && n <= k
    requires p + BitsOf(now, id) <= 8 + 8 * n && q + BitsOf(behind, id) <= 8 + 8 * n
    requires Fields(now, id, LittleEndian([id] + Ones(k)), p) == Fields(behind, id, LittleEndian([id] + Ones(n)), q)
    requires i < |now| && InReport(now[i], id)
    ensures SameValues(now[i].globals, behind[i].globals)
  {
    OnesReport(id, n, 8 + 8 * n);
    OnesReport(id, k, 8 + 8 * n);
    FieldsTell(now, behind, id, LittleEndian([id] + Ones(k)), LittleEndian([id] + Ones(n)), p, q, 8 + 8 * n, i);
  }

  lemma OnesBehind(before: seq<MainItem>, g: Globals, now: seq<MainItem>, behind: seq<MainItem>, offset: nat,
                   id: Byte, n: nat) returns (k: nat, p: nat)
    requires 0 < offset <= n + 1 && g.id == PEN_REPORT
    requires ReadsTilt(before, TiltInputs(g, []), now, behind, offset, [id] + Ones(n), Ones(6))
    ensures n <= k && 8 + BitsOf(before, id) <= p <= 8 + BitsOf(before, id) + 48
    ensures Fields(now, id, LittleEndian([id] + Ones(k)), p) ==
            Fields(behind, id, LittleEndian([id] + Ones(n)), 8 + BitsOf(before, id))
  {
    k, p := if id == PEN_REPORT then n + 6 else n, 8 + BitsOf(before, id) + if id == PEN_REPORT then 48 else 0;
    SplicedOnes(id, n, offset);
    ReadsBehind(before, g, now, behind, offset, [id] + Ones(n), Ones(6), id, [id] + Ones(k));
  }

  /** If the report of ones is read right, its values behind have their old sizes. */
  lemma OnesTell(before: seq<MainItem>, g: Globals, now: seq<MainItem>, behind: seq<MainItem>, offset: nat,
                 id: Byte, n: nat, i: nat)
    requires Alike(now, behind) && 0 < offset <= n + 1 && g.id == PEN_REPORT
    requires BitsOf(before, id) + BitsOf(now, id) + 48 <= 8 * n && BitsOf(before, id) + BitsOf(behind, id) <= 8 * n
    requires i < |now| && InReport(now[i], id)
    requires ReadsTilt(before, TiltInputs(g, []), now, behind, offset, [id] + Ones(n), Ones(6))
    ensures SameValues(now[i].globals, behind[i].globals)
  {
    var k, p := OnesBehind(before, g, now, behind, offset, id, n);
    OnesFit(now, behind, id, n, k, p, BitsOf(before, id), i);
  }

  lemma OnesFit(now: seq<MainItem>, behind: seq<MainItem>, id: Byte, n: nat, k: nat, p: nat, bits: nat, i: nat)
    requires Alike(now, behind) && n <= k && 8 + bits <= p <= 8 + bits + 48
    requires bits + BitsOf(now, id) + 48 <= 8 * n && bits + BitsOf(behind, id) <= 8 * n
    requires i < |now| && InReport(now[i], id)
    requires Fields(now, id, LittleEndian([id] + Ones(k)), p) ==
             Fields(behind, id, LittleEndian([id] + Ones(n)), 8 + bits)
    ensures SameValues(now[i].globals, behind[i].globals)
  {
    OnesShow(now, behind, id, n, k, p, 8 + bits, i);
  }

  lemma ReadsBehind(before: seq<MainItem>, g: Globals, now: seq<MainItem>, behind: seq<MainItem>, offset: nat,
                    report: seq<Byte>, tilt: seq<Byte>, id: Byte, out: seq<Byte>)
    requires report != [] && (report[0] == PEN_REPORT ==> offset <= |report|) && |tilt| == 6 && g.id == PEN_REPORT
    requires ReadsTilt(before, TiltInputs(g, []), now, behind, offset, report, tilt)
    requires id == report[0] && out == WithTilt(report, offset, tilt)
    ensures
      var x, y := LittleEndian(report), LittleEndian(out);
      var pos := 8 + BitsOf(before, id);
      Fields(now, id, y, pos + if id == PEN_REPORT then 48 else 0) == Fields(behind, id, x, pos)
  {
    var x, y, pos := LittleEndian(report), LittleEndian(out), 8 + BitsOf(before, id);
    SplicedFields(before, g, now, id, y);
    TiltInputFields(g, id, y, pos);
    FieldsCount(before, id, x, 8);
    FieldsCount(before, id, y, 8);
    SuffixEqual(Fields(before, id, y, 8) + (if id == PEN_REPORT then Triple(y, pos) else []),
                Fields(now, id, y, pos + if id == PEN_REPORT then 48 else 0),
                Fields(before, id, x, 8) + (if id == PEN_REPORT then TiltValues(tilt) else []),
                Fields(behind, id, x, pos));
  }

  /** Every report that goes through the read path is read as before, with the
      tilt in pen reports. */
  ghost predicate AlwaysReadsTilt(before: seq<MainItem>, inputs: seq<MainItem>, now: seq<MainItem>,
                                  behind: seq<MainItem>, offset: nat) {
    forall report: seq<Byte>, tilt: seq<Byte>
      | report != [] && (report[0] == PEN_REPORT ==> offset <= |report|) && |tilt| == 6 ::
      ReadsTilt(before, inputs, now, behind, offset, report, tilt)
  }

  lemma ReadsTiltExact(before: seq<MainItem>, g: Globals, now: seq<MainItem>, behind: seq<MainItem>, offset: nat)
    requires Alike(now, behind) && (offset == 0 ==> g.id != PEN_REPORT)
    ensures AlwaysReadsTilt(before, TiltInputs(g, []), now, behind, offset) <==>
              g.id == PEN_REPORT && 8 + BitsOf(before, PEN_REPORT) == 8 * offset && SameLayout(now, behind)
  {
    if g.id != PEN_REPORT {
      ElsewhereReads(before, g, now, behind, offset);
    } else if 8 + BitsOf(before, PEN_REPORT) != 8 * offset {
      MisfitReads(before, g, now, behind, offset);
    } else if SameLayout(now, behind) {
      forall report: seq<Byte>, tilt: seq<Byte>
        | report != [] && (report[0] == PEN_REPORT ==> offset <= |report|) && |tilt| == 6
        ensures ReadsTilt(before, TiltInputs(g, []), now, behind, offset, report, tilt)
      {
        FitReads(before, g, now, behind, offset, report, tilt);
      }
    } else {
      var i :| 0 <= i < |now| && now[i].item.prefix / 4 == INPUT / 4 && now[i].globals.id < 256
               && !SameValues(now[i].globals, behind[i].globals);
      var id: Byte := now[i].globals.id;
      var n := offset + 48 + BitsOf(before, id) + BitsOf(now, id) + BitsOf(behind, id);
      if ReadsTilt(before, TiltInputs(g, []), now, behind, offset, [id] + Ones(n), Ones(6)) {
        OnesTell(before, g, now, behind, offset, id, n, i);
        assert false;
      }
    }
  }

  /** For every descriptor that a parser accepts, the reports of the read path are
      read right exactly where the block lies in the pen report, the input bits
      that this report has before the block, with its id, fill the bytes before
      the fixed offset, and the inputs behind the block keep their layout. They do
      where nothing behind it is exposed. */
  lemma OffsetFits(items: seq<Item>, m: nat, offset: nat, mid: Meaning)
    requires m <= |items| && IsPlace(items, m, offset)
    requires Interpret(EMPTY_STATE, items[..m]) == Some(mid) && Interpret(EMPTY_STATE, items).Some?
    ensures Interpret(EMPTY_STATE, Tilted(items, m)).Some?
    ensures
      var g, n := mid.state.globals, |mid.mains|;
      var original := Interpret(EMPTY_STATE, items).value.mains;
      var tilted := Interpret(EMPTY_STATE, Tilted(items, m)).value.mains;
      && n <= |original| && original[..n] == mid.mains
      && n + 3 <= |tilted| && tilted == original[..n] + TiltInputs(g, []) + tilted[n + 3..]
      && (AlwaysReadsTilt(original[..n], TiltInputs(g, []), tilted[n + 3..], original[n..], offset) <==>
            && g.id == PEN_REPORT && 8 + BitsOf(original[..n], PEN_REPORT) == 8 * offset
            && SameLayout(tilted[n + 3..], original[n..]))
      && (!ExposedBehind(mid.state, items[m..]) ==> SameLayout(tilted[n + 3..], original[n..]))
  {
    TiltedReport(items, m, offset, mid);
    FrontHasNoReport(items, m, offset, mid);
    var n := |mid.mains|;
    var original := Interpret(EMPTY_STATE, items).value.mains;
    var tilted := Interpret(EMPTY_STATE, Tilted(items, m)).value.mains;
    assert tilted == tilted[..n + 3] + tilted[n + 3..];
    ReadsTiltExact(original[..n], mid.state.globals, tilted[n + 3..], original[n..], offset);
  }

  /** Offset 0 is the front of the descriptor, where no report id is in force. */
  lemma FrontHasNoReport(items: seq<Item>, m: nat, offset: nat, mid: Meaning)
    requires m <= |items| && IsPlace(items, m, offset)
    requires Interpret(EMPTY_STATE, items[..m]) == Some(mid)
    ensures offset == 0 ==> mid.state.globals.id == 0
  {
    assert items[..0] == [];
  }
}
