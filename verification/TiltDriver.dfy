/** ezTouchFilter, the requests it completes: the length in the HID descriptor,
    the report descriptor itself, and the reports in both directions. */
module TiltDriver {
  import opened CaseFold
  import opened BitArithmetic
  import opened HidItems
  import opened TiltBlock
  import opened TiltFilter
  import opened TiltSuffix

  const EMPTY_STATE := ParserState(Globals(0, 0, 0, map[]), [], [])

  /** A descriptor with the block at an offset. */
  function Spliced(src: seq<Byte>, offset: nat): seq<Byte>
    requires offset <= |src|
  {
    src[..offset] + BLOCK + src[offset..]
  }

  function Tilted(items: seq<Item>, m: nat): seq<Item>
    requires m <= |items|
  {
    items[..m] + ITEMS + items[m..]
  }

  // ---------------------------------------------------------------------
  // What the splice does to a descriptor

  lemma BytesSplit(items: seq<Item>, m: nat)
    requires m <= |items|
    ensures OffsetOf(items, m) <= |Bytes(items)|
    ensures Bytes(items)[..OffsetOf(items, m)] == Bytes(items[..m])
    ensures Bytes(items)[OffsetOf(items, m)..] == Bytes(items[m..])
  {
    assert items == items[..m] + items[m..];
    BytesConcat(items[..m], items[m..]);
  }

  lemma BlockSize()
    ensures |BLOCK| == 48 && WellFormed(ITEMS)
  {
    BlockConstants();
  }

  lemma WellFormedConcat(a: seq<Item>, b: seq<Item>)
    requires WellFormed(a) && WellFormed(b)
    ensures WellFormed(a + b)
  {
    forall i | 0 <= i < |a + b|
      ensures |(a + b)[i].data| == DataSize((a + b)[i].prefix)
    {
      if i < |a| {
        assert (a + b)[i] == a[i];
      } else {
        assert (a + b)[i] == b[i - |a|];
      }
    }
  }

  lemma WellFormedParts(items: seq<Item>, m: nat)
    requires WellFormed(items) && m <= |items|
    ensures WellFormed(items[..m]) && WellFormed(items[m..])
  {
    forall i | 0 <= i < |items[m..]|
      ensures |items[m..][i].data| == DataSize(items[m..][i].prefix)
    {
      assert items[m..][i] == items[m + i];
    }
  }

  /** At an item boundary the block's 20 items join the others, the length grows
      by 48, and taking the block out again gives the original. */
  lemma SplicedParse(src: seq<Byte>, items: seq<Item>, m: nat)
    requires Parse(src) == Some(items) && m <= |items|
    ensures
      var at := OffsetOf(items, m);
      && at <= |src|
      && Parse(Spliced(src, at)) == Some(Tilted(items, m))
      && |Spliced(src, at)| == |src| + 48
      && Spliced(src, at)[..at] + Spliced(src, at)[at + 48..] == src
  {
    BytesParse(src);
    BytesSplit(items, m);
    BlockSize();
    BytesConcat(items[..m], ITEMS);
    BytesConcat(items[..m] + ITEMS, items[m..]);
    TiltedWellFormed(items, m);
    ParseBytes(Tilted(items, m));
    TakeOut(src, OffsetOf(items, m));
  }

  lemma TiltedWellFormed(items: seq<Item>, m: nat)
    requires WellFormed(items) && m <= |items|
    ensures WellFormed(Tilted(items, m))
  {
    BlockSize();
    WellFormedParts(items, m);
    WellFormedConcat(items[..m], ITEMS);
    WellFormedConcat(items[..m] + ITEMS, items[m..]);
  }

  lemma TakeOut(src: seq<Byte>, at: nat)
    requires at <= |src| && |BLOCK| == 48
    ensures |Spliced(src, at)| == |src| + 48
    ensures Spliced(src, at)[..at] + Spliced(src, at)[at + 48..] == src
  {
  }

  // ---------------------------------------------------------------------
  // What it does to the meaning

  /** Whether every Pop finds a Push depends on the depth of the stack alone. */
  lemma {:induction false} NestingOnly(st: ParserState, st': ParserState, items: seq<Item>)
    requires |st.stack| == |st'.stack|
    ensures Interpret(st, items).Some? <==> Interpret(st', items).Some?
    decreases |items|
  {
    if items != [] && StepItem(st, items[0]).Some? {
      NestingOnly(StepItem(st, items[0]).value.state, StepItem(st', items[0]).value.state, items[1..]);
    }
  }

  /** No local items are pending at the place of the block. */
  lemma NothingPending(items: seq<Item>, m: nat, insertOffset: nat)
    requires m <= |items| && IsPlace(items, m, insertOffset)
    ensures Interpret(EMPTY_STATE, items[..m]).Some? ==>
              Interpret(EMPTY_STATE, items[..m]).value.state.locals == []
  {
    if m != 0 {
      PlaceAfterInput(items, m, insertOffset);
      if items[m - 1].prefix == INPUT {
        AfterInput(EMPTY_STATE, items, m - 1);
      } else {
        AfterInput(EMPTY_STATE, items, m - 2);
        assert items[..m] == items[..m - 1] + [items[m - 1]];
        InterpretConcat(EMPTY_STATE, items[..m - 1], [items[m - 1]]);
        if Interpret(EMPTY_STATE, items[..m - 1]).Some? {
          PopKeepsLocals(Interpret(EMPTY_STATE, items[..m - 1]).value.state, items[m - 1]);
        }
      }
    }
  }

  lemma PlaceAfterInput(items: seq<Item>, m: nat, insertOffset: nat)
    requires m != 0 && IsPlace(items, m, insertOffset)
    ensures m <= |items|
    ensures items[m - 1].prefix == INPUT || (m >= 2 && items[m - 1].prefix == POP && items[m - 2].prefix == INPUT)
  {
    var k: nat :| k < |items| && m == PlaceBehind(items, k) && items[k].prefix == INPUT;
  }

  lemma AfterInput(st: ParserState, items: seq<Item>, k: nat)
    requires k < |items| && items[k].prefix == INPUT
    ensures Interpret(st, items[..k + 1]).Some? ==> Interpret(st, items[..k + 1]).value.state.locals == []
  {
    assert items[..k + 1] == items[..k] + [items[k]];
    InterpretConcat(st, items[..k], [items[k]]);
    if Interpret(st, items[..k]).Some? {
      InputClearsLocals(Interpret(st, items[..k]).value.state, items[k]);
    }
  }

  lemma InputClearsLocals(st: ParserState, it: Item)
    requires it.prefix == INPUT
    ensures Interpret(st, [it]).Some? && Interpret(st, [it]).value.state.locals == []
  {
    assert [it][1..] == [];
  }

  lemma PopKeepsLocals(st: ParserState, it: Item)
    requires it.prefix == POP
    ensures Interpret(st, [it]).Some? ==> Interpret(st, [it]).value.state.locals == st.locals
  {
    assert [it][1..] == [];
  }

  /** A block of items read in the middle of others, with its Pushes and Pops in
      balance. */
  lemma InsertedMeaning(items: seq<Item>, m: nat, block: seq<Item>, mid: Meaning, inner: Meaning)
    requires m <= |items| && Interpret(EMPTY_STATE, items[..m]) == Some(mid)
    requires Interpret(mid.state, block) == Some(inner) && |inner.state.stack| == |mid.state.stack|
    ensures Interpret(EMPTY_STATE, items) == Then(Some(mid), items[m..])
    ensures Interpret(EMPTY_STATE, items[..m] + block + items[m..]) ==
            Then(Some(Meaning(mid.mains + inner.mains, inner.state)), items[m..])
    ensures Interpret(inner.state, items[m..]).Some? <==> Interpret(mid.state, items[m..]).Some?
  {
    assert items == items[..m] + items[m..];
    InterpretConcat(EMPTY_STATE, items[..m], items[m..]);
    InterpretConcat(EMPTY_STATE, items[..m], block);
    InterpretConcat(EMPTY_STATE, items[..m] + block, items[m..]);
    NestingOnly(mid.state, inner.state, items[m..]);
  }

  /** A parser reads the tilted descriptor exactly when it reads the original. It
      finds the same main items before the block, then the three inputs of the
      block, and goes on with another report size and report count only. */
  lemma TiltedMeaning(items: seq<Item>, m: nat, insertOffset: nat, mid: Meaning)
    requires m <= |items| && IsPlace(items, m, insertOffset)
    requires Interpret(EMPTY_STATE, items[..m]) == Some(mid)
    ensures
      var g := mid.state.globals;
      && Interpret(EMPTY_STATE, items) == Then(Some(mid), items[m..])
      && Interpret(EMPTY_STATE, Tilted(items, m)) ==
         Then(Some(Meaning(mid.mains + TiltInputs(g, []), ParserState(Sized(g), mid.state.stack, []))), items[m..])
      && (Interpret(EMPTY_STATE, Tilted(items, m)).Some? <==> Interpret(EMPTY_STATE, items).Some?)
  {
    NothingPending(items, m, insertOffset);
    BlockMeaning(mid.state);
    var g := mid.state.globals;
    InsertedMeaning(items, m, ITEMS, mid, Meaning(TiltInputs(g, []), ParserState(Sized(g), mid.state.stack, [])));
  }

  /** A prefix that a parser rejects is rejected in the tilted descriptor too. */
  lemma TiltedRejected(items: seq<Item>, m: nat)
    requires m <= |items| && Interpret(EMPTY_STATE, items[..m]).None?
    ensures Interpret(EMPTY_STATE, items).None? && Interpret(EMPTY_STATE, Tilted(items, m)).None?
  {
    assert items == items[..m] + items[m..];
    InterpretConcat(EMPTY_STATE, items[..m], items[m..]);
    InterpretConcat(EMPTY_STATE, items[..m], ITEMS);
    InterpretConcat(EMPTY_STATE, items[..m] + ITEMS, items[m..]);
  }

  /** In every descriptor that a parser accepts, it reads everything behind the
      block as before, and finds the input report of the device grown by the six
      bytes that the read path adds, exactly when nothing there is exposed. Where
      size and count were 16 and 1 nothing is, and the parser ends as before. */
  lemma TiltedReport(items: seq<Item>, m: nat, insertOffset: nat, mid: Meaning)
    requires m <= |items| && IsPlace(items, m, insertOffset)
    requires Interpret(EMPTY_STATE, items[..m]) == Some(mid) && Interpret(EMPTY_STATE, items).Some?
    ensures Interpret(EMPTY_STATE, Tilted(items, m)).Some?
    ensures
      var original, tilted := Interpret(EMPTY_STATE, items).value, Interpret(EMPTY_STATE, Tilted(items, m)).value;
      var n := |mid.mains|;
      && n <= |original.mains| && original.mains[..n] == mid.mains
      && n + 3 <= |tilted.mains| && tilted.mains[..n + 3] == mid.mains + TiltInputs(mid.state.globals, [])
      && Alike(tilted.mains[n + 3..], original.mains[n..])
      && (tilted.mains[n + 3..] == original.mains[n..] <==> !ExposedBehind(mid.state, items[m..]))
      && (!ExposedBehind(mid.state, items[m..]) ==> InputBits(tilted.mains) == InputBits(original.mains) + 8 * 6)
      && (mid.state.globals.size == 16 && mid.state.globals.count == 1 ==>
            tilted.state == original.state && !ExposedBehind(mid.state, items[m..]))
  {
    var st := mid.state;
    TiltedMeaning(items, m, insertOffset, mid);
    NothingPending(items, m, insertOffset);
    var behind := st.(globals := Sized(st.globals));
    assert behind == ParserState(Sized(st.globals), st.stack, []);
    SuffixExact(st, items[m..]);
    SizedAlready(st, items[m..]);
    var rest, rest' := Interpret(st, items[m..]).value, Interpret(behind, items[m..]).value;
    TiltedParts(mid.mains, TiltInputs(st.globals, []), rest.mains, rest'.mains);
    BlockInputBits(st.globals, []);
  }

  lemma TiltedParts(a: seq<MainItem>, b: seq<MainItem>, c: seq<MainItem>, c': seq<MainItem>)
    ensures (a + c)[..|a|] == a && (a + c)[|a|..] == c
    ensures (a + b + c')[..|a| + |b|] == a + b && (a + b + c')[|a| + |b|..] == c'
    ensures c == c' ==> InputBits(a + b + c') == InputBits(a + c) + InputBits(b)
  {
    InputBitsConcat(a, c);
    InputBitsConcat(a, b);
    InputBitsConcat(a + b, c');
  }

  // ---------------------------------------------------------------------
  // The driver

  datatype Status = Success | BufferTooSmall | InvalidDeviceRequest | NotSupported

  /** A report that is written to the device. */
  datatype Packet = Packet(reportId: Byte, length: nat, buffer: seq<Byte>)

  /** The writes that carry tilt data. */
  predicate CarriesTilt(parameterSize: nat, packet: Option<Packet>) {
    && parameterSize >= 16
    && packet.Some? && packet.value.reportId == 3 && packet.value.length >= 10
    && |packet.value.buffer| >= 14
    && packet.value.buffer[3] == 0xF0 && packet.value.buffer[4] == 1
  }

  const NO_TILT: seq<Byte> := [0, 0, 0, 0, 0, 0]

  /** The tilt in force after the writes: bytes 8 to 13 of the latest. */
  function TiltBytes(writes: seq<seq<Byte>>): (r: seq<Byte>)
    requires forall w | w in writes :: |w| == 14
    ensures |r| == 6
  {
    if writes == [] then NO_TILT else writes[|writes| - 1][8..14]
  }

  /** A pen report with the tilt in it; other reports stay as they are. */
  function WithTilt(report: seq<Byte>, insertOffset: nat, tilt: seq<Byte>): seq<Byte>
    requires report != [] && (report[0] == 7 ==> insertOffset <= |report|)
  {
    if report[0] == 7 then report[..insertOffset] + tilt + report[insertOffset..] else report
  }

  /** The length that a HID descriptor gives for the report descriptor. */
  function DescriptorLength(hid: seq<Byte>): nat
    requires |hid| >= 9
  {
    var low: nat, high: nat := hid[7], hid[8];
    256 * high + low
  }

  /** A byte after an addition that may overflow it. */
  function AddTo(b: Byte, n: nat): Byte
    requires n < 256
  {
    var sum := b + n;
    if sum < 256 then sum else sum - 256
  }

  /** The low byte of the length comes first, at index 7. */
  lemma LowByteFirst(hid: seq<Byte>, n: nat)
    requires |hid| >= 9 && n < 0x1_0000
    ensures DescriptorLength(hid) == n <==> hid[7] == n % 256 && hid[8] == n / 256
  {
    var low: nat, high: nat := hid[7], hid[8];
    assert DescriptorLength(hid) == n ==> n / 256 == high && n % 256 == low;
  }

  /** How both paths build their output: zeros, then three moves. */
  method Assemble(src: array<Byte>, offset: nat, inserted: seq<Byte>, size: nat) returns (out: array<Byte>)
    requires offset <= src.Length && size == src.Length + |inserted|
    ensures fresh(out) && out[..] == src[..offset] + inserted + src[offset..]
  {
    out := new Byte[size](_ => 0);
    forall i | 0 <= i < offset {
      out[i] := src[i];
    }
    forall i | 0 <= i < |inserted| {
      out[offset + i] := inserted[i];
    }
    forall i | offset <= i < src.Length {
      out[i + |inserted|] := src[i];
    }
    assert out[..] == src[..offset] + inserted + src[offset..];
  }

  /** The driver's device context. */
  class DeviceContext {
    var captured: array<Byte>
    var hasTilt: bool
    var readLength: nat
    var newReadLength: nat
    var declaredLength: nat
    var newLength: nat
    var insertOffset: nat
    var insertLength: nat
    /** The accepted writes so far, 14 bytes of each. */
    ghost var writes: seq<seq<Byte>>

    ghost predicate Valid()
      reads this, captured
    {
      && captured.Length == 14
      && (forall w | w in writes :: |w| == 14)
      && captured[8..14] == TiltBytes(writes)
      && (hasTilt <==> writes != [])
      && (writes != [] ==> captured[..] == writes[|writes| - 1])
    }

    /** A new device: its tilt is zero. */
    constructor ()
      ensures Valid() && fresh(captured) && writes == [] && !hasTilt
      ensures readLength == newReadLength == declaredLength == newLength == insertOffset == insertLength == 0
    {
      captured := new Byte[14](_ => 0);
      hasTilt := false;
      readLength, newReadLength, declaredLength, newLength, insertOffset, insertLength := 0, 0, 0, 0, 0, 0;
      writes := [];
      new;
      assert captured[8..14] == NO_TILT;
    }

    /** The HID descriptor passes: its length field grows by 48. */
    method PatchLength(hid: array<Byte>)
      requires hid.Length >= 9 && hid != captured
      modifies this`declaredLength, this`newLength, this`insertLength, hid
      ensures declaredLength == DescriptorLength(old(hid[..])) && newLength == declaredLength + 48
      ensures insertLength == 6
      ensures hid[..] == old(hid[..])[7 := hid[7]][8 := hid[8]]
      ensures DescriptorLength(hid[..]) == if newLength < 0x1_0000 then newLength else newLength - 0x1_0000
      ensures hid[7] == AddTo(old(hid[7]), 48) && hid[8] == AddTo(old(hid[8]), if old(hid[7]) >= 208 then 1 else 0)
    {
      insertLength := 6;
      var low: nat, high: nat := hid[7], hid[8];
      declaredLength := 256 * high + low;
      newLength := declaredLength + 48;
      hid[7] := newLength % 256;
      hid[8] := newLength / 256 % 256;
    }

    /** The report descriptor passes: the block goes in at its place. */
    method SpliceDescriptor(src: array<Byte>, ghost items: seq<Item>) returns (out: array<Byte>)
      requires src != captured && Parse(src[..]) == Some(items)
      requires declaredLength == src.Length && newLength == declaredLength + 48
      modifies this`insertOffset
      ensures fresh(out)
      ensures exists m: nat ::
                && m <= |items| && IsPlace(items, m, insertOffset)
                && OffsetOf(items, m) <= src.Length && out[..] == Spliced(src[..], OffsetOf(items, m))
    {
      BytesParse(src[..]);
      var offset, place := ScanDescriptor(src[..], items);
      ghost var m: nat :| m <= |items| && offset == OffsetOf(items, m) && IsPlace(items, m, place);
      insertOffset := place;
      BlockSize();
      BytesSplit(items, m);
      out := Assemble(src, offset, BLOCK, newLength);
      assert src[..][..offset] == src[..offset] && src[..][offset..] == src[offset..];
      assert out[..] == Spliced(src[..], OffsetOf(items, m));
    }

    /** A write: one that carries tilt is kept and completed here, the others
        fail or are passed on. */
    method CaptureWrite(parameterSize: nat, packet: Option<Packet>) returns (status: Status, passedOn: bool)
      requires Valid()
      requires packet.Some? && packet.value.length >= 10 ==> |packet.value.buffer| >= 14
      modifies this`hasTilt, this`writes, captured
      ensures Valid() && captured == old(captured)
      ensures writes == old(writes) + if CarriesTilt(parameterSize, packet) then [packet.value.buffer[..14]] else []
      ensures status == Success <==>
                && parameterSize >= 16 && packet.Some? && packet.value.reportId == 3 && packet.value.length >= 10
                && packet.value.buffer[3] == 0xF0 && packet.value.buffer[4] == 1
      ensures status == InvalidDeviceRequest <==> parameterSize >= 16 && packet.None?
      ensures status == BufferTooSmall <==> parameterSize < 16 || (packet.Some? && packet.value.length == 0)
      ensures passedOn <==> status == NotSupported
    {
      if parameterSize < 16 {
        return BufferTooSmall, false;
      }
      match packet
      case None => return InvalidDeviceRequest, false;
      case Some(p) =>
        if p.length == 0 {
          return BufferTooSmall, false;
        }
        if p.reportId != 3 || p.length < 10 || p.buffer[3] != 0xF0 || p.buffer[4] != 1 {
          return NotSupported, true;
        }
        hasTilt := true;
        forall i | 0 <= i < 14 {
          captured[i] := p.buffer[i];
        }
        writes := writes + [p.buffer[..14]];
        assert captured[..] == p.buffer[..14];
        assert captured[8..14] == captured[..][8..14];
        return Success, false;
    }

    /** A report read from the device: a pen report gets the latest tilt. */
    method SpliceRead(report: array<Byte>) returns (out: array<Byte>)
      requires Valid() && report.Length > 0 && insertLength == 6
      requires report[0] == 7 ==> insertOffset <= report.Length
      modifies this`readLength, this`newReadLength
      ensures Valid() && readLength == report.Length && newReadLength == readLength + 6
      ensures out[..] == WithTilt(report[..], insertOffset, TiltBytes(writes))
      ensures out.Length == if report[0] == 7 then newReadLength else readLength
    {
      readLength := report.Length;
      newReadLength := insertLength + readLength;
      if report[0] != 7 {
        return report;
      }
      out := Assemble(report, insertOffset, captured[8..14], newReadLength);
      assert report[..][..insertOffset] == report[..insertOffset];
      assert report[..][insertOffset..] == report[insertOffset..];
      assert report[..][0] == report[0];
    }
  }

  /** The bytes that a read adds are the input bits that the block declares, and
      without them the report is the one the device sent. */
  lemma TiltFits(g: Globals, locals: seq<Item>, writes: seq<seq<Byte>>, report: seq<Byte>, insertOffset: nat)
    requires forall w | w in writes :: |w| == 14
    requires report != [] && report[0] == 7 && insertOffset <= |report|
    ensures
      var out := WithTilt(report, insertOffset, TiltBytes(writes));
      && 8 * |out| == 8 * |report| + InputBits(TiltInputs(g, locals))
      && out[..insertOffset] + out[insertOffset + 6..] == report
      && out[insertOffset..insertOffset + 6] == TiltBytes(writes)
  {
    BlockInputBits(g, locals);
  }
}
