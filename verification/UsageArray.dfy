/** Usage-value arrays: fields of one bit size packed back to back into a byte
    buffer, and the display routine that takes one of them out again. */
module UsageArray {
  import opened CaseFold
  import opened BitArithmetic

  type ULong = n: nat | n < 0x1_0000_0000

  /** The byte index of the packing loop is a USHORT. */
  const INDEX_RANGE := 0x1_0000

  // ---------------------------------------------------------------------
  // What the buffer should hold

  /** The array as one number: value i, cut to its low bits, at bit i * bits. */
  function Packed(values: seq<nat>, bits: nat): nat {
    if values == [] then 0
    else Low(values[0], bits) + Shl(Packed(values[1..], bits), bits)
  }

  lemma {:induction false} PackedAppend(values: seq<nat>, x: nat, bits: nat)
    ensures Packed(values + [x], bits) == Packed(values, bits) + Shl(Low(x, bits), ElementBit(|values|, bits))
  {
    if values == [] {
      assert (values + [x])[1..] == [];
      ZeroShl(bits);
    } else {
      var rest := values[1..];
      assert (values + [x])[1..] == rest + [x];
      PackedAppend(rest, x, bits);
      NextElement(|rest|, bits);
      ShlAdd(Packed(rest, bits), Shl(Low(x, bits), ElementBit(|rest|, bits)), bits);
      ShlShl(Low(x, bits), ElementBit(|rest|, bits), bits);
    }
  }

  /** The bit at which element i starts. */
  function ElementBit(i: nat, bits: nat): nat {
    ProductNonNegative(i, bits);
    i * bits
  }

  lemma NextElement(n: nat, bits: nat)
    ensures ElementBit(n + 1, bits) == ElementBit(n, bits) + bits
  {
  }

  lemma PackedNext(values: seq<nat>, i: nat, bits: nat)
    requires i < |values|
    ensures Packed(values[..i + 1], bits) == Packed(values[..i], bits) + Shl(Low(values[i], bits), ElementBit(i, bits))
  {
    assert values[..i + 1] == values[..i] + [values[i]];
    PackedAppend(values[..i], values[i], bits);
  }

  /** Dropping the first i fields is shifting them out. */
  lemma {:induction false} PackedShift(values: seq<nat>, bits: nat, i: nat)
    requires i <= |values|
    ensures High(Packed(values, bits), ElementBit(i, bits)) == Packed(values[i..], bits)
  {
    if i == 0 {
      assert values[0..] == values;
    } else {
      var rest := values[1..];
      PackedShift(rest, bits, i - 1);
      assert rest[i - 1..] == values[i..];
      NextElement(i - 1, bits);
      Digits(Low(values[0], bits), Packed(rest, bits), bits);
      HighHigh(Packed(values, bits), bits, ElementBit(i - 1, bits));
    }
  }

  /** Field i of the packed number is value i modulo 2^bits, and field by field
      that is all there is: the number stays below 2^(n * bits). */
  lemma PackedField(values: seq<nat>, bits: nat, i: nat)
    requires i < |values|
    ensures Field(Packed(values, bits), ElementBit(i, bits), bits) == values[i] % Pow2(bits)
  {
    PackedShift(values, bits, i);
    var rest := values[i..];
    Digits(Low(rest[0], bits), Packed(rest[1..], bits), bits);
    RemainderAndQuotient(values[i], bits);
  }

  lemma {:induction false} PackedBound(values: seq<nat>, bits: nat)
    ensures Packed(values, bits) < Pow2(ElementBit(|values|, bits))
  {
    if values != [] {
      var rest := values[1..];
      PackedBound(rest, bits);
      NextElement(|rest|, bits);
      JoinBound(Low(values[0], bits), Packed(rest, bits), bits, ElementBit(|rest|, bits));
    }
  }

  // ---------------------------------------------------------------------
  // Packing

  function RoundToNearestByte(bits: nat): (n: nat)
    ensures bits <= 8 * n < bits + 8
  {
    if bits % 8 != 0 then bits / 8 + 1 else bits / 8
  }

  /** No bit is set from bit `offset` of byte i on. */
  ghost predicate Clean(b: seq<Byte>, i: nat, offset: nat) {
    && (i < |b| ==> b[i] < Pow2(offset))
    && forall j | i < j < |b| :: b[j] == 0
  }

  /** The low byte shifted left, as a byte, is the n bits that enter there. */
  lemma LowByteShift(v: nat, offset: nat, n: nat)
    requires offset < 8 && n <= 8 - offset
    requires n < 8 - offset ==> v < Pow2(n)
    ensures Low(Shl(Low(v, 8), offset), 8) == Shl(Low(v, n), offset)
  {
    LowShl(Low(v, 8), offset, 8);
    LowLow(v, 8, 8 - offset);
    if n < 8 - offset {
      Pow2Monotone(n, 8 - offset);
      LowOfSmall(v, n);
      LowOfSmall(v, 8 - offset);
    }
  }

  /** One round of the inner loop, seen on the buffer: n bits enter byte i. */
  lemma StoreBits(b: seq<Byte>, i: nat, offset: nat, c: nat, n: nat, x: nat)
    requires Clean(b, i, offset) && i < |b| && offset + n <= 8 && c < Pow2(n)
    requires x == Or(b[i], Shl(c, offset))
    ensures x < 256
    ensures Clean(b[i := x], i, offset + n) && (offset + n == 8 ==> Clean(b[i := x], i + 1, 0))
    ensures LittleEndian(b[i := x]) == LittleEndian(b) + Shl(c, offset + 8 * i)
  {
    OrDisjoint(b[i], c, offset);
    JoinBound(b[i], c, offset, n);
    Pow2Monotone(offset + n, 8);
    BytePower();
    LittleEndianUpdate(b, i, x);
    ShlShl(c, offset, 8 * i);
  }

  /** Or-ing in the byte of a value of 0 changes nothing. */
  lemma NothingToOr(ulValue: nat, b: Byte, offset: nat)
    ensures ulValue == 0 ==> Or(b, Low(Shl(And(ulValue, 0xFF), offset), 8)) == b
  {
    if ulValue == 0 {
      ZeroShl(offset);
      LowOfZero(8);
      BytePower();
      ZeroShl(8);
      OrDisjoint(b, 0, 8);
    }
  }

  /** One round of the inner loop: the low bits of the value are or-ed in. The
      byte that is meant is number i; the byte index says so until it wraps. */
  method PutBits(list: array<Byte>, ulValue: nat, nBits: nat, iByteIndex: nat, iByteOffset: nat, ghost i: nat)
    requires 0 < nBits <= 8 - iByteOffset && (nBits < 8 - iByteOffset ==> ulValue < Pow2(nBits))
    requires iByteIndex < list.Length && iByteIndex < INDEX_RANGE
    modifies list
    ensures forall j | INDEX_RANGE <= j < list.Length :: list[j] == old(list[j])
    ensures i == iByteIndex && Clean(old(list[..]), i, iByteOffset) ==>
              && Clean(list[..], i, iByteOffset + nBits)
              && (iByteOffset + nBits == 8 ==> Clean(list[..], i + 1, 0))
              && LittleEndian(list[..]) ==
                 LittleEndian(old(list[..])) + Shl(Low(ulValue, nBits), iByteOffset + 8 * i)
    ensures ulValue == 0 ==> list[..] == old(list[..])
  {
    var lowByte := And(ulValue, 0xFF);
    BytePower();
    AndMask(ulValue, 8);
    lowByte := Low(Shl(lowByte, iByteOffset), 8);
    OrBound(list[iByteIndex], lowByte, 8);
    LowByteShift(ulValue, iByteOffset, nBits);
    ghost var before := list[..];
    var joined := Or(list[iByteIndex], lowByte);
    NothingToOr(ulValue, list[iByteIndex], iByteOffset);
    list[iByteIndex] := joined;
    if i == iByteIndex && Clean(before, i, iByteOffset) {
      StoreBits(before, i, iByteOffset, Low(ulValue, nBits), nBits, joined);
      assert list[..] == before[iByteIndex := joined];
    }
  }

  /** The buffer after the first bits of a value have been stored at bit t;
      the next ones go to byte i, at the offset, if the byte index reaches it. */
  ghost predicate Stored(b: seq<Byte>, start: nat, value: nat, done: nat, t: nat, i: nat, offset: nat) {
    && t + done == offset + 8 * i
    && (i < INDEX_RANGE ==> Clean(b, i, offset))
    && LittleEndian(b) == start + Shl(Low(value, done), t)
  }

  lemma StoredNext(b: seq<Byte>, b': seq<Byte>, start: nat, value: nat, done: nat, n: nat, t: nat, i: nat, offset: nat)
    requires Stored(b, start, value, done, t, i, offset) && offset + n <= 8 && i < INDEX_RANGE
    requires Clean(b', i, offset + n) && (offset + n == 8 ==> Clean(b', i + 1, 0))
    requires LittleEndian(b') == LittleEndian(b) + Shl(Low(High(value, done), n), offset + 8 * i)
    ensures Stored(b', start, value, done + n, t,
                   if offset + n >= 8 then i + 1 else i, if offset + n >= 8 then 0 else offset + n)
  {
    var c := Low(High(value, done), n);
    LowSum(value, done, n);
    ShlShl(c, done, t);
    ShlAdd(Low(value, done), Shl(c, done), t);
  }

  /** Past the last byte that the index reaches there is nothing left to store. */
  lemma StoredNothing(b: seq<Byte>, start: nat, value: nat, done: nat, n: nat, t: nat, i: nat, offset: nat)
    requires Stored(b, start, value, done, t, i, offset) && High(value, done) == 0 && i >= INDEX_RANGE
    ensures Low(value, done + n) == Low(value, done)
  {
    LowSum(value, done, n);
    LowOfZero(n);
    ZeroShl(done);
  }

  /** The byte index that stands for byte i. */
  function Wrapped(i: nat): (r: nat)
    ensures r < INDEX_RANGE && r <= i && (i < INDEX_RANGE ==> r == i)
  {
    i % INDEX_RANGE
  }

  lemma WrappedNext(i: nat)
    ensures (Wrapped(i) + 1) % INDEX_RANGE == Wrapped(i + 1)
  {
  }

  /** One round of the inner loop with the move to the next position. */
  method PutRound(list: array<Byte>, ulValue: nat, bitsToAdd: nat, byteIndex: nat, byteOffset: nat,
                  ghost i: nat, ghost start: nat, ghost value: nat, ghost done: nat, ghost t: nat)
    returns (nBits: nat, iByteIndex: nat, iByteOffset: nat, ghost i': nat)
    requires byteOffset < 8 && byteIndex == Wrapped(i) && i < list.Length
    requires bitsToAdd > 0 && ulValue < Pow2(bitsToAdd) && ulValue == High(value, done)
    modifies list
    ensures 0 < nBits <= bitsToAdd && iByteOffset < 8 && iByteIndex == Wrapped(i')
    ensures iByteOffset + 8 * i' == byteOffset + 8 * i + nBits
    ensures forall j | INDEX_RANGE <= j < list.Length :: list[j] == old(list[j])
    ensures (i < INDEX_RANGE || ulValue == 0) && Stored(old(list[..]), start, value, done, t, i, byteOffset) ==>
              Stored(list[..], start, value, done + nBits, t, i', iByteOffset)
  {
    nBits := if 8 - byteOffset < bitsToAdd then 8 - byteOffset else bitsToAdd;
    ghost var before := list[..];
    PutBits(list, ulValue, nBits, byteIndex, byteOffset, i);
    if i < INDEX_RANGE && Stored(before, start, value, done, t, i, byteOffset) {
      StoredNext(before, list[..], start, value, done, nBits, t, i, byteOffset);
    } else if ulValue == 0 && Stored(before, start, value, done, t, i, byteOffset) {
      StoredNothing(before, start, value, done, nBits, t, i, byteOffset);
    }
    iByteOffset := (byteOffset + nBits) % 8;
    if byteOffset + nBits >= 8 {
      WrappedNext(i);
      assert iByteOffset == 0;
      iByteIndex, i' := (byteIndex + 1) % INDEX_RANGE, i + 1;
    } else {
      assert iByteOffset == byteOffset + nBits;
      iByteIndex, i' := byteIndex, i;
    }
  }

  /** The number fits the bytes that the 16-bit index reaches. */
  predicate WithinRange(x: nat) {
    x < Pow2(8 * INDEX_RANGE)
  }

  /** A value whose bits all fit has none left behind the last byte. */
  lemma NoneLeft(value: nat, t: nat, done: nat)
    requires WithinRange(Shl(value, t)) && t + done >= 8 * INDEX_RANGE
    ensures High(value, done) == 0
  {
    if High(value, done) > 0 {
      Split(value, done);
      ShlMonotone(1, High(value, done), done);
      ShlMonotone(Shl(1, done), value, t);
      ShlShl(1, done, t);
      Pow2Add(0, done + t);
      Pow2Monotone(8 * INDEX_RANGE, done + t);
      assert false;
    }
  }

  /** The inner loop: one value enters the buffer, from an offset in byte i on.
      If all its bits fit the bytes that the index reaches, exactly that value is
      added there. */
  method PutValue(list: array<Byte>, value: nat, bitSize: nat, byteIndex: nat, byteOffset: nat, ghost i: nat)
    returns (iByteIndex: nat, iByteOffset: nat, ghost i': nat)
    requires value < Pow2(bitSize) && byteOffset < 8 && byteOffset + 8 * i + bitSize <= 8 * list.Length
    requires byteIndex == Wrapped(i)
    modifies list
    ensures iByteOffset < 8 && iByteOffset + 8 * i' == byteOffset + 8 * i + bitSize
    ensures iByteIndex == Wrapped(i')
    ensures forall j | INDEX_RANGE <= j < list.Length :: list[j] == old(list[j])
    ensures WithinRange(Shl(value, byteOffset + 8 * i)) && (i < INDEX_RANGE ==> Clean(old(list[..]), i, byteOffset)) ==>
              && (i' < INDEX_RANGE ==> Clean(list[..], i', iByteOffset))
              && LittleEndian(list[..]) == LittleEndian(old(list[..])) + Shl(value, byteOffset + 8 * i)
  {
    iByteIndex, iByteOffset, i' := byteIndex, byteOffset, i;
    var bitsToAdd: nat := bitSize;
    var ulValue := value;
    ghost var done: nat, t: nat, start := 0, byteOffset + 8 * i, LittleEndian(list[..]);
    ghost var fits := WithinRange(Shl(value, t)) && (i < INDEX_RANGE ==> Clean(list[..], i, byteOffset));
    ZeroShl(t);
    while bitsToAdd > 0
      invariant done + bitsToAdd == bitSize
      invariant iByteOffset < 8 && t + done == iByteOffset + 8 * i' && iByteIndex == Wrapped(i')
      invariant ulValue == High(value, done)
      invariant forall j | INDEX_RANGE <= j < list.Length :: list[j] == old(list[j])
      invariant fits ==> Stored(list[..], start, value, done, t, i', iByteOffset)
    {
      HighBound(value, done, bitsToAdd);
      if fits && i' >= INDEX_RANGE {
        NoneLeft(value, t, done);
      }
      var nBits;
      nBits, iByteIndex, iByteOffset, i' :=
        PutRound(list, ulValue, bitsToAdd, iByteIndex, iByteOffset, i', start, value, done, t);
      HighHigh(value, done, nBits);
      bitsToAdd := bitsToAdd - nBits;
      ulValue := High(ulValue, nBits);
      done := done + nBits;
    }
    LowOfSmall(value, bitSize);
  }

  /** The values that are packed: at most as many as the report has room for. */
  function Used(ulongList: seq<ULong>, reportCount: nat): (r: seq<ULong>)
    ensures r <= ulongList && |r| <= reportCount && (|r| < reportCount ==> r == ulongList)
  {
    if |ulongList| > reportCount then ulongList[..reportCount] else ulongList
  }

  lemma Room(i: nat, n: nat, count: nat, bits: nat)
    requires i < n <= count
    ensures ElementBit(i + 1, bits) == ElementBit(i, bits) + bits <= ElementBit(n, bits) <= ElementBit(count, bits)
  {
    NextElement(i, bits);
    Monotone(i + 1, n, bits);
    Monotone(n, count, bits);
  }

  /** The buffer is the packed number exactly when that number fits the bytes that
      the 16-bit index reaches; it does if the elements' bits do. */
  method ConvertUlongListToValueList(ulongList: seq<ULong>, bitSize: nat, reportCount: nat)
    returns (valueList: Option<array<Byte>>)
    requires bitSize <= 32 && reportCount < 0x1_0000
    ensures valueList.None? <==> reportCount == 0
    ensures valueList.Some? ==> valueList.value.Length == RoundToNearestByte(ElementBit(reportCount, bitSize))
    ensures valueList.Some? ==>
              (LittleEndian(valueList.value[..]) == Packed(Used(ulongList, reportCount), bitSize) <==>
               WithinRange(Packed(Used(ulongList, reportCount), bitSize)))
    ensures valueList.Some? && ElementBit(|Used(ulongList, reportCount)|, bitSize) <= 8 * INDEX_RANGE ==>
              LittleEndian(valueList.value[..]) == Packed(Used(ulongList, reportCount), bitSize)
    ensures valueList.Some? ==>
              forall j | INDEX_RANGE <= j < valueList.value.Length :: valueList.value[j] == 0
  {
    if reportCount == 0 {
      return None;
    }
    var values := Used(ulongList, reportCount);
    var list := new Byte[RoundToNearestByte(ElementBit(reportCount, bitSize))](_ => 0);
    Monotone(|values|, reportCount, bitSize);
    PackValues(list, values, bitSize);
    BitsFit(values, bitSize);
    return Some(list);
  }

  /** The buffer holds the first n values and nothing else. */
  ghost predicate Filled(b: seq<Byte>, values: seq<nat>, n: nat, bits: nat, i: nat, offset: nat)
    requires n <= |values|
  {
    (i < INDEX_RANGE ==> Clean(b, i, offset)) && LittleEndian(b) == Packed(values[..n], bits)
  }

  lemma FilledNext(b: seq<Byte>, b': seq<Byte>, values: seq<nat>, n: nat, bits: nat,
                   i: nat, offset: nat, i': nat, offset': nat)
    requires n < |values| && Filled(b, values, n, bits, i, offset)
    requires i' < INDEX_RANGE ==> Clean(b', i', offset')
    requires LittleEndian(b') == LittleEndian(b) + Shl(Low(values[n], bits), ElementBit(n, bits))
    ensures Filled(b', values, n + 1, bits, i', offset')
  {
    PackedNext(values, n, bits);
  }

  lemma {:induction false} PackedPrefix(values: seq<nat>, k: nat, bits: nat)
    requires k <= |values|
    ensures Packed(values[..k], bits) <= Packed(values, bits)
    decreases |values| - k
  {
    if k < |values| {
      PackedNext(values, k, bits);
      PackedPrefix(values, k + 1, bits);
    } else {
      assert values[..k] == values;
    }
  }

  /** Where the whole number fits, each value does at its place. */
  lemma ValueFits(values: seq<nat>, n: nat, bits: nat)
    requires n < |values|
    ensures WithinRange(Packed(values, bits)) ==> WithinRange(Shl(Low(values[n], bits), ElementBit(n, bits)))
  {
    PackedNext(values, n, bits);
    PackedPrefix(values, n + 1, bits);
  }

  lemma BitsFit(values: seq<nat>, bits: nat)
    ensures ElementBit(|values|, bits) <= 8 * INDEX_RANGE ==> WithinRange(Packed(values, bits))
  {
    PackedBound(values, bits);
    if ElementBit(|values|, bits) <= 8 * INDEX_RANGE {
      Pow2Monotone(ElementBit(|values|, bits), 8 * INDEX_RANGE);
    }
  }

  /** The main conversion loop, on a buffer of zeros with room for the values. */
  method PackValues(list: array<Byte>, values: seq<nat>, bitSize: nat)
    requires bitSize <= 32 && ElementBit(|values|, bitSize) <= 8 * list.Length
    requires forall j | 0 <= j < list.Length :: list[j] == 0
    modifies list
    ensures LittleEndian(list[..]) == Packed(values, bitSize) <==> WithinRange(Packed(values, bitSize))
    ensures forall j | INDEX_RANGE <= j < list.Length :: list[j] == 0
  {
    var ulMask := Mask(bitSize);
    LittleEndianZeros(list[..]);
    var iByteIndex: nat, iByteOffset: nat := 0, 0;
    ghost var i: nat := 0;
    ghost var fits := WithinRange(Packed(values, bitSize));
    for n := 0 to |values|
      invariant iByteOffset < 8 && iByteOffset + 8 * i == ElementBit(n, bitSize) && iByteIndex == Wrapped(i)
      invariant forall j | INDEX_RANGE <= j < list.Length :: list[j] == 0
      invariant fits ==> Filled(list[..], values, n, bitSize, i, iByteOffset)
    {
      ghost var before, i0, offset0 := list[..], i, iByteOffset;
      var ulValue := And(values[n], ulMask);
      AndMask(values[n], bitSize);
      Room(n, |values|, |values|, bitSize);
      ValueFits(values, n, bitSize);
      iByteIndex, iByteOffset, i := PutValue(list, ulValue, bitSize, iByteIndex, iByteOffset, i);
      if fits {
        FilledNext(before, list[..], values, n, bitSize, i0, offset0, i, iByteOffset);
      }
    }
    assert values[..|values|] == values;
    ZeroTail(list[..]);
  }

  /** The mask for the bits of one value. */
  function Mask(bitSize: nat): (m: nat)
    requires bitSize <= 32
    ensures m == Pow2(bitSize) - 1
  {
    WordPower();
    if bitSize == 32 then 0xFFFF_FFFF else Pow2(bitSize) - 1
  }

  /** When the byte index does run out, there are values the buffer loses: the
      bytes from INDEX_RANGE on stay zero, while a last value of all ones does
      not fit below them. */
  lemma IndexOverflowLosesBits(b: seq<Byte>, values: seq<nat>, bits: nat)
    requires values != [] && ElementBit(|values|, bits) > 8 * INDEX_RANGE
    requires values[|values| - 1] == Pow2(bits) - 1
    requires forall j | INDEX_RANGE <= j < |b| :: b[j] == 0
    ensures LittleEndian(b) != Packed(values, bits)
  {
    ZeroTail(b);
    LastValueIsHigh(values, bits);
    Pow2Monotone(8 * INDEX_RANGE, ElementBit(|values|, bits) - 1);
  }

  lemma ZeroTail(b: seq<Byte>)
    requires forall j | INDEX_RANGE <= j < |b| :: b[j] == 0
    ensures LittleEndian(b) < Pow2(8 * INDEX_RANGE)
  {
    var low := if |b| <= INDEX_RANGE then b else b[..INDEX_RANGE];
    var high := b[|low|..];
    assert b == low + high;
    LittleEndianConcat(low, high);
    LittleEndianZeros(high);
    ZeroShl(8 * |low|);
    LittleEndianBound(low);
    Pow2Monotone(8 * |low|, 8 * INDEX_RANGE);
  }

  lemma LastValueIsHigh(values: seq<nat>, bits: nat)
    requires values != [] && bits > 0 && values[|values| - 1] == Pow2(bits) - 1
    ensures ElementBit(|values|, bits) > 0 && Packed(values, bits) >= Pow2(ElementBit(|values|, bits) - 1)
  {
    var n := |values| - 1;
    assert values == values[..n] + [values[n]];
    PackedAppend(values[..n], values[n], bits);
    LowOfSmall(values[n], bits);
    NextElement(n, bits);
    ShlMonotone(Pow2(bits - 1), values[n], ElementBit(n, bits));
    Pow2Add(bits - 1, ElementBit(n, bits));
  }

  // ---------------------------------------------------------------------
  // Extraction

  /** The value the display routine takes out for one element, or nothing when
      it reports an error. */
  function ExtractValue(buffer: seq<Byte>, bitSize: nat, usageIndex: nat): Option<nat>
    requires 1 <= bitSize <= 32
  {
    ExtractAt(buffer, bitSize, ElementBit(usageIndex, bitSize))
  }

  function ExtractAt(buffer: seq<Byte>, bitSize: nat, position: nat): Option<nat>
    requires 1 <= bitSize <= 32
  {
    var iByteIndex, iByteOffset := position / 8, position % 8;
    if iByteIndex + 4 > |buffer| then None
    else
      var ulValue := High(LittleEndian(buffer[iByteIndex..iByteIndex + 4]), iByteOffset);
      if bitSize > 32 - iByteOffset then
        if iByteIndex + 4 < |buffer| then
          Some(Or(ulValue, Low(Shl(buffer[iByteIndex + 4], 24 + (8 - iByteOffset)), 32)))
        else None
      else if bitSize < 32 - iByteOffset then Some(And(ulValue, Pow2(bitSize) - 1))
      else Some(ulValue)
  }

  /** How many bits come out: the routine masks only when the element ends
      inside its 32-bit window. */
  function BitsTaken(bitSize: nat, position: nat): nat {
    if position % 8 + bitSize > 32 then 32 else bitSize
  }

  /** The bytes the routine has to be able to read. */
  predicate WindowInBuffer(size: nat, bitSize: nat, position: nat) {
    position / 8 + (if position % 8 + bitSize > 32 then 5 else 4) <= size
  }

  /** What is taken out is a field of the buffer's number, and an error is
      reported exactly when the bytes it needs are not all there. */
  lemma ExtractedField(buffer: seq<Byte>, bitSize: nat, position: nat)
    requires 1 <= bitSize <= 32
    ensures ExtractAt(buffer, bitSize, position) ==
            if WindowInBuffer(|buffer|, bitSize, position)
            then Some(Field(LittleEndian(buffer), position, BitsTaken(bitSize, position)))
            else None
  {
    if WindowInBuffer(|buffer|, bitSize, position) {
      if position % 8 + bitSize > 32 {
        ExtractedUnmasked(buffer, bitSize, position);
      } else {
        ExtractedMasked(buffer, bitSize, position);
      }
    }
  }

  lemma ExtractedUnmasked(buffer: seq<Byte>, bitSize: nat, position: nat)
    requires 1 <= bitSize <= 32 < position % 8 + bitSize && position / 8 + 5 <= |buffer|
    ensures ExtractAt(buffer, bitSize, position) == Some(Field(LittleEndian(buffer), position, 32))
  {
    FiveByteWindow(buffer, position / 8, 4, position % 8);
  }

  lemma ExtractedMasked(buffer: seq<Byte>, bitSize: nat, position: nat)
    requires 1 <= bitSize && position % 8 + bitSize <= 32 && position / 8 + 4 <= |buffer|
    ensures ExtractAt(buffer, bitSize, position) == Some(Field(LittleEndian(buffer), position, bitSize))
  {
    FourByteWindow(buffer, position / 8, 4, position % 8, bitSize);
  }

  lemma FourByteWindow(buffer: seq<Byte>, i: nat, n: nat, offset: nat, bitSize: nat)
    requires i + n <= |buffer| && offset + bitSize <= 8 * n
    ensures
      var w := High(LittleEndian(buffer[i..i + n]), offset);
      && And(w, Pow2(bitSize) - 1) == Field(LittleEndian(buffer), 8 * i + offset, bitSize)
      && (offset + bitSize == 8 * n ==> w == Field(LittleEndian(buffer), 8 * i + offset, bitSize))
  {
    var window := LittleEndian(buffer[i..i + n]);
    LittleEndianWindow(buffer, i, n);
    WindowField(LittleEndian(buffer), 8 * i, 8 * n, offset, bitSize);
    var w := High(window, offset);
    AndMask(w, bitSize);
    if offset + bitSize == 8 * n {
      HighBound(window, offset, bitSize);
      LowOfSmall(w, bitSize);
    }
  }

  /** The window of n bytes and the byte behind it, shifted together. */
  lemma FiveByteWindow(buffer: seq<Byte>, i: nat, n: nat, offset: nat)
    requires i + n + 1 <= |buffer| && offset < 8 && offset <= 8 * n
    ensures Or(High(LittleEndian(buffer[i..i + n]), offset), Low(Shl(buffer[i + n], 8 * n - offset), 8 * n)) ==
            Field(LittleEndian(buffer), 8 * i + offset, 8 * n)
  {
    var low, top := buffer[i..i + n], buffer[i + n];
    assert buffer[i..i + (n + 1)] == low + [top];
    LittleEndianWindow(buffer, i, n + 1);
    FifthByte(low, top);
    LittleEndianBound(low);
    JoinWindow(LittleEndian(low), top, 8 * n, offset);
    WindowField(LittleEndian(buffer), 8 * i, 8 * (n + 1), offset, 8 * n);
  }

  lemma FifthByte(low: seq<Byte>, top: Byte)
    ensures LittleEndian(low + [top]) == LittleEndian(low) + Shl(top, 8 * |low|)
  {
    LittleEndianConcat(low, [top]);
    assert LittleEndian([top]) == top;
  }

  /** Joining the shifted window and the shifted byte above it. */
  lemma JoinWindow(window: nat, top: nat, size: nat, offset: nat)
    requires window < Pow2(size) && offset <= size
    ensures Or(High(window, offset), Low(Shl(top, size - offset), size)) ==
            Field(window + Shl(top, size), offset, size)
  {
    var k := size - offset;
    var w, all := High(window, offset), window + Shl(top, size);
    var above := High(all, offset);
    LowShl(top, k, size);
    HighBound(window, offset, k);
    OrDisjoint(w, Low(top, offset), k);
    Digits(window, top, size);
    HighHigh(all, offset, k);
    HighOfLow(all, offset, k);
    LowSum(above, k, offset);
  }

  // ---------------------------------------------------------------------
  // Packing, then extracting

  /** What comes back for element i: the value modulo 2^bits in the low bits,
      and, where the routine does not mask, bits of the elements behind it. */
  function Returned(values: seq<nat>, bits: nat, i: nat): nat
    requires i < |values|
  {
    var extra := if ElementBit(i, bits) % 8 + bits > 32 && bits < 32 then 32 - bits else 0;
    Low(values[i], bits) + Shl(Low(Packed(values[i + 1..], bits), extra), bits)
  }

  lemma RoundTrip(values: seq<nat>, bits: nat, i: nat, buffer: seq<Byte>)
    requires 1 <= bits <= 32 && i < |values|
    requires LittleEndian(buffer) == Packed(values, bits)
    requires WindowInBuffer(|buffer|, bits, ElementBit(i, bits))
    ensures ExtractValue(buffer, bits, i) == Some(Returned(values, bits, i))
  {
    ExtractedField(buffer, bits, ElementBit(i, bits));
    ReturnedField(values, bits, i);
  }

  lemma ReturnedField(values: seq<nat>, bits: nat, i: nat)
    requires 1 <= bits <= 32 && i < |values|
    ensures Field(Packed(values, bits), ElementBit(i, bits), BitsTaken(bits, ElementBit(i, bits))) ==
            Returned(values, bits, i)
  {
    FieldOfPacked(values, bits, i, BitsTaken(bits, ElementBit(i, bits)) - bits);
  }

  lemma FieldOfPacked(values: seq<nat>, bits: nat, i: nat, extra: nat)
    requires i < |values|
    ensures
      var above := Low(Packed(values[i + 1..], bits), extra);
      Field(Packed(values, bits), ElementBit(i, bits), bits + extra) == Low(values[i], bits) + Shl(above, bits)
  {
    PackedShift(values, bits, i);
    var x, rest := values[i], values[i + 1..];
    assert values[i..][1..] == rest;
    Digits(Low(x, bits), Packed(rest, bits), bits);
    LowSum(Packed(values[i..], bits), bits, extra);
  }

  /** For every bit size, the value comes back modulo 2^bits. */
  lemma RoundTripModulo(values: seq<nat>, bits: nat, i: nat)
    requires i < |values|
    ensures Low(Returned(values, bits, i), bits) == Low(values[i], bits)
  {
    var extra := if ElementBit(i, bits) % 8 + bits > 32 && bits < 32 then 32 - bits else 0;
    Digits(Low(values[i], bits), Low(Packed(values[i + 1..], bits), extra), bits);
  }

  /** The value comes back exactly if and only if the element ends inside the
      32-bit window or nothing but zeros follow it there. */
  lemma RoundTripExact(values: seq<nat>, bits: nat, i: nat, buffer: seq<Byte>)
    requires 1 <= bits <= 32 && i < |values|
    requires LittleEndian(buffer) == Packed(values, bits)
    requires WindowInBuffer(|buffer|, bits, ElementBit(i, bits))
    ensures ExtractValue(buffer, bits, i) == Some(Low(values[i], bits)) <==>
            ElementBit(i, bits) % 8 + bits <= 32 || Low(Packed(values[i + 1..], bits), 32 - bits) == 0
  {
    RoundTrip(values, bits, i, buffer);
    ReturnedExact(values, bits, i);
  }

  lemma ReturnedExact(values: seq<nat>, bits: nat, i: nat)
    requires 1 <= bits <= 32 && i < |values|
    ensures Returned(values, bits, i) == Low(values[i], bits) <==>
            ElementBit(i, bits) % 8 + bits <= 32 || Low(Packed(values[i + 1..], bits), 32 - bits) == 0
  {
    var rest := Packed(values[i + 1..], bits);
    NoneAbove(Low(rest, 32 - bits), bits);
    NoneAbove(Low(rest, 0), bits);
  }

  lemma NoneAbove(above: nat, bits: nat)
    ensures Shl(above, bits) == 0 <==> above == 0
  {
    ZeroShl(bits);
    if above > 0 {
      ShlMonotone(1, above, bits);
      Pow2Add(0, bits);
    }
  }

  /** Every element of an array can be shown exactly, whatever the values are,
      for all bit sizes but four. */
  lemma MaskedSizes(bits: nat)
    requires 1 <= bits <= 32
    ensures (forall i: nat :: ElementBit(i, bits) % 8 + bits <= 32) <==> bits !in {27, 29, 30, 31}
  {
    if bits in {27, 29, 30, 31} {
      var i := if bits == 27 then 5 else if bits == 29 then 3 else 1;
      assert ElementBit(i, bits) % 8 + bits > 32;
    } else {
      forall i: nat
        ensures ElementBit(i, bits) % 8 + bits <= 32
      {
        SmallOffset(bits, i);
      }
    }
  }

  lemma SmallOffset(bits: nat, i: nat)
    requires 1 <= bits <= 32 && bits !in {27, 29, 30, 31}
    ensures ElementBit(i, bits) % 8 + bits <= 32
  {
    if bits <= 25 {
      assert ElementBit(i, bits) % 8 <= 7;
    } else if bits == 26 {
      assert ElementBit(i, bits) == 8 * (3 * i) + 2 * i;
    } else if bits == 28 {
      assert ElementBit(i, bits) == 8 * (3 * i) + 4 * i;
    } else if bits == 32 {
      assert ElementBit(i, bits) == 8 * (4 * i);
    }
  }
}
