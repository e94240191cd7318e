/** The block of items that ezTouchFilter puts into a report descriptor: three
    16-bit inputs for the tilt and twist of a pen. */
module TiltBlock {
  import opened CaseFold
  import opened BitArithmetic
  import opened HidItems

  // The items, from the last ones on.

  const TWIST: seq<Item> :=
    [Item(0x15, [0x00])] + ([Item(0x27, [0xA0, 0x8C, 0x00, 0x00])] + ([Item(0x09, [0x3F])]
    + ([Item(0x81, [0x02])] + [Item(0xB4, [])])))
  const TWIST_UNITS: seq<Item> :=
    [Item(0x09, [0x3E])] + ([Item(0x81, [0x02])] + ([Item(0x35, [0x00])]
    + ([Item(0x47, [0xA0, 0x8C, 0x00, 0x00])] + TWIST)))
  const TILT: seq<Item> :=
    [Item(0x46, [0x28, 0x23])] + ([Item(0x16, [0xD8, 0xDC])] + ([Item(0x26, [0x28, 0x23])]
    + ([Item(0x81, [0x02])] + TWIST_UNITS)))
  const TILT_UNITS: seq<Item> :=
    [Item(0xA4, [])] + ([Item(0x65, [0x14])] + ([Item(0x55, [0x0E])] + ([Item(0x36, [0xD8, 0xDC])] + TILT)))
  const ITEMS: seq<Item> :=
    [Item(0x75, [0x10])] + ([Item(0x95, [0x01])] + ([Item(0x09, [0x3D])] + TILT_UNITS))

  /** The 48 bytes of the block. */
  const BLOCK: seq<Byte> := Bytes(ITEMS)

  /** Items with the number of their bytes and the number these write. */
  ghost predicate Writes(items: seq<Item>, count: nat, size: nat, value: nat) {
    |items| == count && WellFormed(items) && |Bytes(items)| == size && LittleEndian(Bytes(items)) == value
  }

  function Weight(n: nat): nat
    requires n <= 4
  {
    if n == 0 then 0x100 else if n == 1 then 0x1_0000 else if n == 2 then 0x100_0000
    else if n == 3 then 0x1_0000_0000 else 0x100_0000_0000
  }

  function DataValue(data: seq<Byte>): nat
    requires |data| <= 4
  {
    var d: seq<nat> := data + [0, 0, 0, 0];
    d[0] + 256 * (d[1] + 256 * (d[2] + 256 * d[3]))
  }

  lemma DataValueIs(data: seq<Byte>)
    requires |data| <= 4
    ensures LittleEndian(data) == DataValue(data)
  {
    if data != [] {
      var d1 := data[1..];
      if d1 != [] {
        var d2 := d1[1..];
        assert d1[0] == data[1];
        if d2 != [] {
          assert d2[0] == data[2];
          assert d2[1..] == [] || d2[1..] == [data[3]];
        }
      }
    }
  }

  lemma WeightIs(x: nat, n: nat)
    requires n <= 4
    ensures Shl(x, 8 * (n + 1)) == Weight(n) * x
  {
    ShlByte(x);
    ShlByte(256 * x);
    ShlByte(0x1_0000 * x);
    ShlByte(0x100_0000 * x);
    ShlByte(0x1_0000_0000 * x);
    ShlShl(x, 8, 8);
    ShlShl(x, 16, 8);
    ShlShl(x, 24, 8);
    ShlShl(x, 32, 8);
  }

  /** One more item in front. */
  lemma Prepend(it: Item, rest: seq<Item>, count: nat, size: nat, value: nat)
    requires Writes(rest, count, size, value) && |it.data| == DataSize(it.prefix)
    ensures Writes([it] + rest, count + 1, size + 1 + |it.data|,
                   it.prefix + 256 * DataValue(it.data) + Weight(|it.data|) * value)
  {
    assert ([it] + rest)[0] == it && ([it] + rest)[1..] == rest;
    var head := [it.prefix] + it.data;
    assert head[0] == it.prefix && head[1..] == it.data;
    LittleEndianConcat(head, Bytes(rest));
    DataValueIs(it.data);
    WeightIs(value, |it.data|);
    forall i | 0 <= i < |[it] + rest|
      ensures |([it] + rest)[i].data| == DataSize(([it] + rest)[i].prefix)
    {
      assert i == 0 || ([it] + rest)[i] == rest[i - 1];
    }
  }

  lemma TwistWrites()
    ensures Writes(TWIST, 5, 12, 0xB402813F0900008CA0270015)
  {
    assert [Item(0xB4, [])][1..] == [];
    var last := [Item(0xB4, [])];
    assert Bytes(last) == [0xB4] + [] + Bytes([]);
    assert Bytes(last) == [0xB4] && [0xB4][1..] == [];
    assert Writes(last, 1, 1, 0xB4);
    Prepend(Item(0x81, [0x02]), last, 1, 1, 0xB4);
    var s18 := [Item(0x81, [0x02])] + last;
    Prepend(Item(0x09, [0x3F]), s18, 2, 3, 0xB40281);
    var s17 := [Item(0x09, [0x3F])] + s18;
    Prepend(Item(0x27, [0xA0, 0x8C, 0x00, 0x00]), s17, 3, 5, 0xB402813F09);
    var s16 := [Item(0x27, [0xA0, 0x8C, 0x00, 0x00])] + s17;
    Prepend(Item(0x15, [0x00]), s16, 4, 10, 0xB402813F0900008CA027);
  }

  lemma TwistUnitsWrites()
    ensures Writes(TWIST_UNITS, 9, 23, 0xB402813F0900008CA027001500008CA047003502813E09)
  {
    TwistWrites();
    Prepend(Item(0x47, [0xA0, 0x8C, 0x00, 0x00]), TWIST, 5, 12, 0xB402813F0900008CA0270015);
    var s14 := [Item(0x47, [0xA0, 0x8C, 0x00, 0x00])] + TWIST;
    Prepend(Item(0x35, [0x00]), s14, 6, 17, 0xB402813F0900008CA027001500008CA047);
    var s13 := [Item(0x35, [0x00])] + s14;
    Prepend(Item(0x81, [0x02]), s13, 7, 19, 0xB402813F0900008CA027001500008CA0470035);
    var s12 := [Item(0x81, [0x02])] + s13;
    Prepend(Item(0x09, [0x3E]), s12, 8, 21, 0xB402813F0900008CA027001500008CA04700350281);
  }

  lemma TiltWrites()
    ensures Writes(TILT, 13, 34, 0xB402813F0900008CA027001500008CA047003502813E090281232826DCD816232846)
  {
    TwistUnitsWrites();
    Prepend(Item(0x81, [0x02]), TWIST_UNITS, 9, 23, 0xB402813F0900008CA027001500008CA047003502813E09);
    var s10 := [Item(0x81, [0x02])] + TWIST_UNITS;
    Prepend(Item(0x26, [0x28, 0x23]), s10, 10, 25, 0xB402813F0900008CA027001500008CA047003502813E090281);
    var s9 := [Item(0x26, [0x28, 0x23])] + s10;
    Prepend(Item(0x16, [0xD8, 0xDC]), s9, 11, 28, 0xB402813F0900008CA027001500008CA047003502813E090281232826);
    var s8 := [Item(0x16, [0xD8, 0xDC])] + s9;
    Prepend(Item(0x46, [0x28, 0x23]), s8, 12, 31, 0xB402813F0900008CA027001500008CA047003502813E090281232826DCD816);
  }

  lemma TiltUnitsWrites()
    ensures Writes(TILT_UNITS, 17, 42,
                   0xB402813F0900008CA027001500008CA047003502813E090281232826DCD816232846DCD8360E551465A4)
  {
    TiltWrites();
    Prepend(Item(0x36, [0xD8, 0xDC]), TILT, 13, 34,
            0xB402813F0900008CA027001500008CA047003502813E090281232826DCD816232846);
    var s6 := [Item(0x36, [0xD8, 0xDC])] + TILT;
    Prepend(Item(0x55, [0x0E]), s6, 14, 37,
            0xB402813F0900008CA027001500008CA047003502813E090281232826DCD816232846DCD836);
    var s5 := [Item(0x55, [0x0E])] + s6;
    Prepend(Item(0x65, [0x14]), s5, 15, 39,
            0xB402813F0900008CA027001500008CA047003502813E090281232826DCD816232846DCD8360E55);
    var s4 := [Item(0x65, [0x14])] + s5;
    Prepend(Item(0xA4, []), s4, 16, 41,
            0xB402813F0900008CA027001500008CA047003502813E090281232826DCD816232846DCD8360E551465);
  }

  lemma ItemsWrites()
    ensures Writes(ITEMS, 20, 48,
                   0xB402813F0900008CA027001500008CA047003502813E090281232826DCD816232846DCD8360E551465A43D0901951075)
  {
    TiltUnitsWrites();
    Prepend(Item(0x09, [0x3D]), TILT_UNITS, 17, 42,
            0xB402813F0900008CA027001500008CA047003502813E090281232826DCD816232846DCD8360E551465A4);
    var s2 := [Item(0x09, [0x3D])] + TILT_UNITS;
    Prepend(Item(0x95, [0x01]), s2, 18, 44,
            0xB402813F0900008CA027001500008CA047003502813E090281232826DCD816232846DCD8360E551465A43D09);
    var s1 := [Item(0x95, [0x01])] + s2;
    Prepend(Item(0x75, [0x10]), s1, 19, 46,
            0xB402813F0900008CA027001500008CA047003502813E090281232826DCD816232846DCD8360E551465A43D090195);
  }

  /** The block is 20 items in 48 bytes, and these are the three 128-bit
      constants of the driver, least significant byte first. */
  lemma BlockConstants()
    ensures |ITEMS| == 20 && WellFormed(ITEMS) && |BLOCK| == 48
    ensures LittleEndian(BLOCK) ==
            0x2846DCD8360E551465A43D0901951075
            + 0x1_00000000_00000000_00000000_00000000
              * (0x47003502813E090281232826DCD81623
                 + 0x1_00000000_00000000_00000000_00000000 * 0xB402813F0900008CA027001500008CA0)
  {
    ItemsWrites();
  }

  // ---------------------------------------------------------------------
  // What the block means

  /** One item in front of others. */
  lemma Read(st: ParserState, it: Item, rest: seq<Item>)
    ensures Interpret(st, [it] + rest) ==
            match StepItem(st, it)
            case None => None
            case Some(first) => After(first.mains, Interpret(first.state, rest))
  {
    assert ([it] + rest)[0] == it && ([it] + rest)[1..] == rest;
    match StepItem(st, it)
    case None =>
    case Some(first) =>
      match Interpret(first.state, rest)
      case None =>
      case Some(m) => assert [] + m.mains == m.mains && first.mains + [] == first.mains;
  }

  lemma GlobalStep(st: ParserState, it: Item, tag: nat)
    requires tag < 10 && (it.prefix == 16 * tag + 5 || it.prefix == 16 * tag + 6 || it.prefix == 16 * tag + 7)
    ensures StepItem(st, it) == Some(Meaning([], st.(globals := SetGlobal(st.globals, tag, it.data))))
  {
    assert it.prefix / 16 == tag && it.prefix / 4 == 4 * tag + 1;
  }

  /** A global item other than Push and Pop. */
  lemma ReadGlobal(st: ParserState, it: Item, rest: seq<Item>, tag: nat) returns (next: ParserState)
    requires tag < 10 && (it.prefix == 16 * tag + 5 || it.prefix == 16 * tag + 6 || it.prefix == 16 * tag + 7)
    ensures next == st.(globals := SetGlobal(st.globals, tag, it.data))
    ensures Interpret(st, [it] + rest) == Interpret(next, rest)
  {
    next := st.(globals := SetGlobal(st.globals, tag, it.data));
    Read(st, it, rest);
    GlobalStep(st, it, tag);
    if Interpret(next, rest).Some? {
      assert [] + Interpret(next, rest).value.mains == Interpret(next, rest).value.mains;
    }
  }

  lemma ReadPush(st: ParserState, rest: seq<Item>) returns (next: ParserState)
    ensures next == st.(stack := st.stack + [st.globals])
    ensures Interpret(st, [Item(0xA4, [])] + rest) == Interpret(next, rest)
  {
    next := st.(stack := st.stack + [st.globals]);
    Read(st, Item(0xA4, []), rest);
  }

  lemma ReadUsage(st: ParserState, id: Byte, rest: seq<Item>) returns (next: ParserState)
    ensures next == st.(locals := st.locals + [Usage(id)])
    ensures Interpret(st, [Item(0x09, [id])] + rest) == Interpret(next, rest)
  {
    next := st.(locals := st.locals + [Usage(id)]);
    Read(st, Item(0x09, [id]), rest);
  }

  lemma InputStep(st: ParserState)
    ensures StepItem(st, Item(0x81, [0x02])) ==
            Some(Meaning([MainItem(Item(0x81, [0x02]), st.globals, st.locals)], st.(locals := [])))
  {
  }

  /** A main item, by what it is read as. */
  lemma ReadMain(st: ParserState, it: Item, main: MainItem, next: ParserState, rest: seq<Item>)
    requires StepItem(st, it) == Some(Meaning([main], next))
    ensures Interpret(st, [it] + rest) == After([main], Interpret(next, rest))
  {
    Read(st, it, rest);
  }

  lemma ReadInput(st: ParserState, rest: seq<Item>) returns (next: ParserState)
    ensures next == st.(locals := [])
    ensures Interpret(st, [Item(0x81, [0x02])] + rest) ==
            After([MainItem(Item(0x81, [0x02]), st.globals, st.locals)], Interpret(next, rest))
  {
    next := st.(locals := []);
    InputStep(st);
    ReadMain(st, Item(0x81, [0x02]), MainItem(Item(0x81, [0x02]), st.globals, st.locals), next, rest);
  }

  /** A usage and the input it applies to. */
  lemma ReadUsedInput(st: ParserState, id: Byte, rest: seq<Item>)
    requires st.locals == []
    ensures Interpret(st, [Item(0x09, [id])] + ([Item(0x81, [0x02])] + rest)) ==
            After([MainItem(Item(0x81, [0x02]), st.globals, [Usage(id)])], Interpret(st, rest))
  {
    var used := ReadUsage(st, id, [Item(0x81, [0x02])] + rest);
    assert used.locals == [Usage(id)];
    var next := ReadInput(used, rest);
    assert next == st;
  }

  function After(mains: seq<MainItem>, m: Option<Meaning>): Option<Meaning> {
    match m
    case None => None
    case Some(rest) =>
      Some(Meaning(if mains == [] then rest.mains else if rest.mains == [] then mains else mains + rest.mains,
                   rest.state))
  }

  /** The globals that the block leaves behind: a report size of 16 and a report
      count of 1 are set before its Push. */
  function Sized(g: Globals): Globals {
    g.(size := 16, count := 1)
  }

  // The global items that the block sets: unit, exponent and physical minimum; the
  // remaining limits of the tilt; and all limits of the twist.

  function TiltUnits(rest: map<nat, seq<Byte>>): map<nat, seq<Byte>> {
    rest[6 := [0x14]][5 := [0x0E]][3 := [0xD8, 0xDC]]
  }

  function TiltRange(rest: map<nat, seq<Byte>>): map<nat, seq<Byte>> {
    rest[4 := [0x28, 0x23]][1 := [0xD8, 0xDC]][2 := [0x28, 0x23]]
  }

  function TwistRange(rest: map<nat, seq<Byte>>): map<nat, seq<Byte>> {
    rest[3 := [0x00]][4 := [0xA0, 0x8C, 0x00, 0x00]][1 := [0x00]][2 := [0xA0, 0x8C, 0x00, 0x00]]
  }

  function TiltGlobals(g: Globals): Globals {
    var rest := TiltRange(TiltUnits(g.rest));
    Sized(g).(rest := rest)
  }

  function TwistGlobals(g: Globals): Globals {
    TiltGlobals(g).(rest := TwistRange(TiltGlobals(g).rest))
  }

  function Usage(id: Byte): Item {
    Item(0x09, [id])
  }

  /** The three inputs of the block: X tilt, Y tilt and twist. */
  function TiltInputs(g: Globals, locals: seq<Item>): seq<MainItem> {
    [MainItem(Item(0x81, [0x02]), TiltGlobals(g), locals + [Usage(0x3D)])]
    + ([MainItem(Item(0x81, [0x02]), TiltGlobals(g), [Usage(0x3E)])]
       + [MainItem(Item(0x81, [0x02]), TwistGlobals(g), [Usage(0x3F)])])
  }

  lemma TwistMeaning(st: ParserState, outer: seq<Globals>, g: Globals)
    requires st.stack == outer + [g] && st.locals == []
    ensures
      var twist := st.globals.(rest := st.globals.rest[1 := [0x00]][2 := [0xA0, 0x8C, 0x00, 0x00]]);
      Interpret(st, TWIST) ==
        Some(Meaning([MainItem(Item(0x81, [0x02]), twist, [Usage(0x3F)])], ParserState(g, outer, [])))
  {
    var last := [Item(0xB4, [])];
    var t2 := [Item(0x81, [0x02])] + last;
    var t1 := [Item(0x09, [0x3F])] + t2;
    var s1 := ReadGlobal(st, Item(0x15, [0x00]), [Item(0x27, [0xA0, 0x8C, 0x00, 0x00])] + t1, 1);
    var s2 := ReadGlobal(s1, Item(0x27, [0xA0, 0x8C, 0x00, 0x00]), t1, 2);
    ReadUsedInput(s2, 0x3F, last);
    PopMeaning(s2, outer, g);
  }

  lemma PopMeaning(st: ParserState, outer: seq<Globals>, g: Globals)
    requires st.stack == outer + [g]
    ensures Interpret(st, [Item(0xB4, [])]) == Some(Meaning([], st.(globals := g, stack := outer)))
  {
    assert [Item(0xB4, [])] + [] == [Item(0xB4, [])];
    Read(st, Item(0xB4, []), []);
  }

  lemma TwistUnitsMeaning(st: ParserState, outer: seq<Globals>, g: Globals)
    requires st.stack == outer + [g] && st.locals == []
    ensures
      var twist := st.globals.(rest := TwistRange(st.globals.rest));
      Interpret(st, TWIST_UNITS) ==
        Some(Meaning([MainItem(Item(0x81, [0x02]), st.globals, [Usage(0x3E)])]
                     + [MainItem(Item(0x81, [0x02]), twist, [Usage(0x3F)])],
                     ParserState(g, outer, [])))
  {
    var t3 := [Item(0x47, [0xA0, 0x8C, 0x00, 0x00])] + TWIST;
    var t2 := [Item(0x35, [0x00])] + t3;
    ReadUsedInput(st, 0x3E, t2);
    var s1 := ReadGlobal(st, Item(0x35, [0x00]), t3, 3);
    var s2 := ReadGlobal(s1, Item(0x47, [0xA0, 0x8C, 0x00, 0x00]), TWIST, 4);
    TwistMeaning(s2, outer, g);
  }

  lemma ReadTiltRange(st: ParserState, rest: seq<Item>) returns (next: ParserState)
    ensures next == st.(globals := st.globals.(rest := TiltRange(st.globals.rest)))
    ensures Interpret(st, [Item(0x46, [0x28, 0x23])]
                          + ([Item(0x16, [0xD8, 0xDC])] + ([Item(0x26, [0x28, 0x23])] + rest))) ==
            Interpret(next, rest)
  {
    var t2 := [Item(0x26, [0x28, 0x23])] + rest;
    var s1 := ReadGlobal(st, Item(0x46, [0x28, 0x23]), [Item(0x16, [0xD8, 0xDC])] + t2, 4);
    var s2 := ReadGlobal(s1, Item(0x16, [0xD8, 0xDC]), t2, 1);
    next := ReadGlobal(s2, Item(0x26, [0x28, 0x23]), rest, 2);
  }

  lemma TiltMeaning(st: ParserState, outer: seq<Globals>, g: Globals)
    requires st.stack == outer + [g]
    ensures
      var tilt := st.globals.(rest := TiltRange(st.globals.rest));
      var twist := tilt.(rest := TwistRange(tilt.rest));
      Interpret(st, TILT) ==
        Some(Meaning([MainItem(Item(0x81, [0x02]), tilt, st.locals)]
                     + ([MainItem(Item(0x81, [0x02]), tilt, [Usage(0x3E)])]
                        + [MainItem(Item(0x81, [0x02]), twist, [Usage(0x3F)])]),
                     ParserState(g, outer, [])))
  {
    var t3 := [Item(0x81, [0x02])] + TWIST_UNITS;
    var s3 := ReadTiltRange(st, t3);
    var s4 := ReadInput(s3, TWIST_UNITS);
    TwistUnitsMeaning(s4, outer, g);
  }

  lemma TiltUnitsMeaning(st: ParserState)
    requires st.globals == Sized(st.globals)
    ensures
      var tilt := st.globals.(rest := TiltRange(TiltUnits(st.globals.rest)));
      var twist := tilt.(rest := TwistRange(tilt.rest));
      Interpret(st, TILT_UNITS) ==
        Some(Meaning([MainItem(Item(0x81, [0x02]), tilt, st.locals)]
                     + ([MainItem(Item(0x81, [0x02]), tilt, [Usage(0x3E)])]
                        + [MainItem(Item(0x81, [0x02]), twist, [Usage(0x3F)])]),
                     st.(locals := [])))
  {
    var t3 := [Item(0x36, [0xD8, 0xDC])] + TILT;
    var t2 := [Item(0x55, [0x0E])] + t3;
    var t1 := [Item(0x65, [0x14])] + t2;
    var s1 := ReadPush(st, t1);
    var s2 := ReadGlobal(s1, Item(0x65, [0x14]), t2, 6);
    var s3 := ReadGlobal(s2, Item(0x55, [0x0E]), t3, 5);
    var s4 := ReadGlobal(s3, Item(0x36, [0xD8, 0xDC]), TILT, 3);
    TiltMeaning(s4, st.stack, st.globals);
  }

  /** In any state, the block declares its three inputs and gives back the stack
      and every global item except the report size and the report count. */
  lemma BlockMeaning(st: ParserState)
    ensures Interpret(st, ITEMS) ==
            Some(Meaning(TiltInputs(st.globals, st.locals), ParserState(Sized(st.globals), st.stack, [])))
  {
    var t2 := [Item(0x09, [0x3D])] + TILT_UNITS;
    var s1 := ReadGlobal(st, Item(0x75, [0x10]), [Item(0x95, [0x01])] + t2, REPORT_SIZE);
    var s2 := ReadGlobal(s1, Item(0x95, [0x01]), t2, REPORT_COUNT);
    var s3 := ReadUsage(s2, 0x3D, TILT_UNITS);
    assert s3.globals == Sized(st.globals);
    SizedTwice(st.globals);
    TiltUnitsMeaning(s3);
  }

  lemma SizedTwice(g: Globals)
    ensures Sized(Sized(g)) == Sized(g)
  {
  }

  /** The block leaves the globals as they were exactly where the report size was
      16 and the report count 1 already. */
  lemma GlobalsRestored(g: Globals)
    ensures Sized(g) == g <==> g.size == 16 && g.count == 1
  {
  }

  /** The block declares 48 input bits, which is six bytes. */
  lemma BlockInputBits(g: Globals, locals: seq<Item>)
    ensures InputBits(TiltInputs(g, locals)) == 8 * 6
  {
    var inputs := TiltInputs(g, locals);
    SixteenBits(inputs[0]);
    SixteenBits(inputs[1]);
    SixteenBits(inputs[2]);
    InputBitsConcat([inputs[0]], [inputs[1]] + [inputs[2]]);
    InputBitsConcat([inputs[1]], [inputs[2]]);
  }

  lemma SixteenBits(m: MainItem)
    requires m.item.prefix == 0x81 && m.globals.size == 16 && m.globals.count == 1
    ensures InputBits([m]) == 16
  {
    assert [m][1..] == [];
  }
}
