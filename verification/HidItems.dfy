/** HID report descriptors as sequences of short items (section 6.2.2.2 of the
    Device Class Definition for Human Interface Devices, version 1.11), and what
    they mean to a parser. */
module HidItems {
  import opened CaseFold
  import opened BitArithmetic

  const USAGE_PAGE: Byte := 0x05
  const USAGE: Byte := 0x09
  const INPUT: Byte := 0x81
  const POP: Byte := 0xB4

  /** A short item: its prefix and the data the prefix announces. */
  datatype Item = Item(prefix: Byte, data: seq<Byte>)

  function DataSize(prefix: Byte): (n: nat)
    ensures n <= 4
  {
    if prefix % 4 == 3 then 4 else prefix % 4
  }

  predicate WellFormed(items: seq<Item>) {
    forall i | 0 <= i < |items| :: |items[i].data| == DataSize(items[i].prefix)
  }

  function Bytes(items: seq<Item>): seq<Byte> {
    if items == [] then [] else [items[0].prefix] + items[0].data + Bytes(items[1..])
  }

  /** The items that tile a descriptor exactly, if there are such. */
  function Parse(b: seq<Byte>): Option<seq<Item>>
    decreases |b|
  {
    if b == [] then Some([])
    else
      var n := 1 + DataSize(b[0]);
      if |b| < n then None
      else
        match Parse(b[n..])
        case None => None
        case Some(rest) => Some([Item(b[0], b[1..n])] + rest)
  }

  lemma {:induction false} ParseBytes(items: seq<Item>)
    requires WellFormed(items)
    ensures Parse(Bytes(items)) == Some(items)
  {
    if items != [] {
      var first, b := items[0], Bytes(items);
      assert |first.data| == DataSize(first.prefix);
      assert WellFormed(items[1..]) by {
        forall i | 0 <= i < |items[1..]|
          ensures |items[1..][i].data| == DataSize(items[1..][i].prefix)
        {
          assert items[1..][i] == items[i + 1];
        }
      }
      ParseBytes(items[1..]);
      var n := 1 + |first.data|;
      assert b[n..] == Bytes(items[1..]) && b[1..n] == first.data && b[0] == first.prefix;
      assert items == [first] + items[1..];
    }
  }

  lemma FirstItem(b: seq<Byte>, n: nat)
    requires 1 <= n <= |b|
    ensures [b[0]] + b[1..n] + b[n..] == b
  {
  }

  lemma {:induction false} BytesParse(b: seq<Byte>)
    requires Parse(b).Some?
    ensures WellFormed(Parse(b).value) && Bytes(Parse(b).value) == b
    decreases |b|
  {
    if b != [] {
      var n := 1 + DataSize(b[0]);
      BytesParse(b[n..]);
      var rest := Parse(b[n..]).value;
      var items := Parse(b).value;
      assert items == [Item(b[0], b[1..n])] + rest && items[1..] == rest;
      FirstItem(b, n);
    }
  }

  lemma {:induction false} BytesConcat(a: seq<Item>, b: seq<Item>)
    ensures Bytes(a + b) == Bytes(a) + Bytes(b)
  {
    if a == [] {
      assert a + b == b;
    } else {
      assert (a + b)[1..] == a[1..] + b;
      BytesConcat(a[1..], b);
    }
  }

  lemma BytesSnoc(before: seq<Item>, it: Item)
    ensures Bytes(before + [it]) == Bytes(before) + ([it.prefix] + it.data)
  {
    BytesConcat(before, [it]);
    BytesOne(it);
  }

  /** An item's bytes come after those of the items before it. */
  lemma ItemAt(before: seq<Item>, it: Item, after: seq<Item>)
    ensures Bytes(before + [it] + after) == Bytes(before) + ([it.prefix] + it.data) + Bytes(after)
  {
    BytesConcat(before + [it], after);
    BytesSnoc(before, it);
  }

  lemma BytesOne(it: Item)
    ensures Bytes([it]) == [it.prefix] + it.data
  {
    assert Bytes([it]) == [it.prefix] + it.data + Bytes([]);
  }

  // ---------------------------------------------------------------------
  // What items mean to a parser

  const REPORT_SIZE: nat := 7
  const REPORT_ID: nat := 8
  const REPORT_COUNT: nat := 9

  /** The global items in force. Report size, id and count are unsigned numbers,
      whatever number of bytes they are written in, and 0 before they are set; of
      the others the data is kept, by tag. */
  datatype Globals = Globals(size: nat, id: nat, count: nat, rest: map<nat, seq<Byte>>)

  function SetGlobal(g: Globals, tag: nat, data: seq<Byte>): Globals {
    if tag == REPORT_SIZE then g.(size := LittleEndian(data))
    else if tag == REPORT_ID then g.(id := LittleEndian(data))
    else if tag == REPORT_COUNT then g.(count := LittleEndian(data))
    else g.(rest := g.rest[tag := data])
  }

  /** The parser's state: the global items in force, the tables put away by Push
      (section 6.2.2.7), and the local items since the last main item. */
  datatype ParserState = ParserState(globals: Globals, stack: seq<Globals>, locals: seq<Item>)

  /** Input, Output and Feature items declare data; collections do not. */
  predicate DeclaresData(prefix: Byte) {
    prefix / 16 == 8 || prefix / 16 == 9 || prefix / 16 == 11
  }

  /** The globals as they apply to a main item: report size and report count
      matter to data only. */
  function Applying(g: Globals, prefix: Byte): Globals {
    if DeclaresData(prefix) then g else g.(size := 0, count := 0)
  }

  /** A main item with everything that applies to it. */
  datatype MainItem = MainItem(item: Item, globals: Globals, locals: seq<Item>)

  /** What a parser makes of the items, or nothing when a Pop has no Push. */
  datatype Meaning = Meaning(mains: seq<MainItem>, state: ParserState)

  function StepItem(st: ParserState, it: Item): Option<Meaning> {
    var tag, kind := it.prefix / 16, it.prefix / 4 % 4;
    if kind == 0 then Some(Meaning([MainItem(it, Applying(st.globals, it.prefix), st.locals)], st.(locals := [])))
    else if kind == 1 then
      if tag == 10 then Some(Meaning([], st.(stack := st.stack + [st.globals])))
      else if tag == 11 then
        if st.stack == [] then None
        else Some(Meaning([], st.(globals := st.stack[|st.stack| - 1], stack := st.stack[..|st.stack| - 1])))
      else Some(Meaning([], st.(globals := SetGlobal(st.globals, tag, it.data))))
    else Some(Meaning([], st.(locals := st.locals + [it])))
  }

  /** The items that matter for data, by their prefixes: report size, report count
      and report id are set by 0x75, 0x95 and 0x85, put away by 0xA4 and taken back
      by 0xB4; 0x81, 0x91 and 0xB1 declare input, output and features with all that
      is in force, and a collection takes no size and no count. */
  lemma ItemMeanings(st: ParserState, v: Byte)
    ensures StepItem(st, Item(0x75, [v])) == Some(Meaning([], st.(globals := st.globals.(size := v))))
    ensures StepItem(st, Item(0x95, [v])) == Some(Meaning([], st.(globals := st.globals.(count := v))))
    ensures StepItem(st, Item(0x85, [v])) == Some(Meaning([], st.(globals := st.globals.(id := v))))
    ensures StepItem(st, Item(0xA4, [])) == Some(Meaning([], st.(stack := st.stack + [st.globals])))
    ensures StepItem(st.(stack := st.stack + [st.globals]), Item(0xB4, [])) == Some(Meaning([], st))
    ensures StepItem(st.(stack := []), Item(0xB4, [])) == None
    ensures StepItem(st, Item(0x09, [v])) == Some(Meaning([], st.(locals := st.locals + [Item(0x09, [v])])))
    ensures forall prefix: Byte | prefix == 0x81 || prefix == 0x91 || prefix == 0xB1 ::
              StepItem(st, Item(prefix, [v])) ==
              Some(Meaning([MainItem(Item(prefix, [v]), st.globals, st.locals)], st.(locals := [])))
    ensures StepItem(st, Item(0xA1, [v])) ==
            Some(Meaning([MainItem(Item(0xA1, [v]), st.globals.(size := 0, count := 0), st.locals)], st.(locals := [])))
  {
    assert LittleEndian([v]) == v;
    assert (st.stack + [st.globals])[..|st.stack|] == st.stack;
  }

  function Interpret(st: ParserState, items: seq<Item>): Option<Meaning>
    decreases |items|
  {
    if items == [] then Some(Meaning([], st))
    else
      match StepItem(st, items[0])
      case None => None
      case Some(first) =>
        match Interpret(first.state, items[1..])
        case None => None
        case Some(rest) => Some(Meaning(first.mains + rest.mains, rest.state))
  }

  /** What is read first, then what is read from where that ended. */
  function Then(a: Option<Meaning>, items: seq<Item>): Option<Meaning> {
    match a
    case None => None
    case Some(first) =>
      match Interpret(first.state, items)
      case None => None
      case Some(rest) => Some(Meaning(first.mains + rest.mains, rest.state))
  }

  lemma {:induction false} InterpretConcat(st: ParserState, a: seq<Item>, b: seq<Item>)
    ensures Interpret(st, a + b) == Then(Interpret(st, a), b)
    decreases |a|
  {
    if a == [] {
      assert a + b == b;
      if Interpret(st, b).Some? {
        assert [] + Interpret(st, b).value.mains == Interpret(st, b).value.mains;
      }
    } else {
      assert (a + b)[1..] == a[1..] + b;
      match StepItem(st, a[0])
      case None =>
      case Some(first) =>
        InterpretConcat(first.state, a[1..], b);
        match Interpret(first.state, a[1..])
        case None =>
        case Some(mid) =>
          match Interpret(mid.state, b)
          case None =>
          case Some(rest) =>
            assert first.mains + (mid.mains + rest.mains) == first.mains + mid.mains + rest.mains;
    }
  }

  /** The bits that a main item takes in an input report. */
  function MainBits(m: MainItem): nat {
    if m.item.prefix / 4 == INPUT / 4 then ReportBits(m.globals.size, m.globals.count) else 0
  }

  /** The bits that the input items take in all reports. */
  function InputBits(mains: seq<MainItem>): nat {
    if mains == [] then 0
    else
      MainBits(mains[0]) + InputBits(mains[1..])
  }

  function ReportBits(size: nat, count: nat): nat {
    ProductNonNegative(size, count);
    size * count
  }

  lemma {:induction false} InputBitsConcat(a: seq<MainItem>, b: seq<MainItem>)
    ensures InputBits(a + b) == InputBits(a) + InputBits(b)
  {
    if a == [] {
      assert a + b == b;
    } else {
      assert (a + b)[1..] == a[1..] + b;
      InputBitsConcat(a[1..], b);
    }
  }
}
