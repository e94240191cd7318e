/** What the tilt block changes for the items behind it: it leaves another report
    size and report count in force. */
module TiltSuffix {
  import opened CaseFold
  import opened HidItems
  import opened TiltBlock

  /** What a parser finds, without the state it ends in. */
  function Mains(m: Option<Meaning>): Option<seq<MainItem>> {
    match m case None => None case Some(found) => Some(found.mains)
  }

  // ---------------------------------------------------------------------
  // Exposed items

  /** Whether the report size and the report count in force are others. */
  datatype Change = Change(size: bool, count: bool)

  const NO_CHANGE := Change(false, false)

  /** What is changed behind an item, and what Push has put away. */
  function NextChange(it: Item, d: Change, stack: seq<Change>): (Change, seq<Change>) {
    var tag, kind := it.prefix / 16, it.prefix / 4 % 4;
    if kind != 1 then (d, stack)
    else if tag == 10 then (d, stack + [d])
    else if tag == 11 then if stack == [] then (d, stack) else (stack[|stack| - 1], stack[..|stack| - 1])
    else if tag == REPORT_SIZE then (d.(size := false), stack)
    else if tag == REPORT_COUNT then (d.(count := false), stack)
    else (d, stack)
  }

  predicate ExposedAt(it: Item, d: Change) {
    it.prefix / 4 % 4 == 0 && DeclaresData(it.prefix) && (d.size || d.count)
  }

  /** Some item declares data with a changed size or count, because none has been
      set before it or because a Pop has brought the changed one back. */
  predicate Exposed(items: seq<Item>, d: Change, stack: seq<Change>)
    decreases |items|
  {
    items != [] &&
    (ExposedAt(items[0], d) ||
     var next := NextChange(items[0], d, stack);
     Exposed(items[1..], next.0, next.1))
  }

  function Unchanged(n: nat): (s: seq<Change>)
    ensures |s| == n && forall i | 0 <= i < n :: s[i] == NO_CHANGE
  {
    if n == 0 then [] else Unchanged(n - 1) + [NO_CHANGE]
  }

  /** Items behind the block that declare data with its size or count. */
  predicate ExposedBehind(st: ParserState, rest: seq<Item>) {
    Exposed(rest, Change(st.globals.size != 16, st.globals.count != 1), Unchanged(|st.stack|))
  }

  // ---------------------------------------------------------------------
  // Parsing on from two states

  /** Globals that are alike but for the changed ones of size and count. */
  ghost predicate Differ(g: Globals, g': Globals, d: Change) {
    g.id == g'.id && g.rest == g'.rest && (g.size != g'.size <==> d.size) && (g.count != g'.count <==> d.count)
  }

  ghost predicate StatesDiffer(st: ParserState, st': ParserState, d: Change, stack: seq<Change>) {
    && Differ(st.globals, st'.globals, d) && st.locals == st'.locals
    && |st.stack| == |st'.stack| == |stack|
    && forall i | 0 <= i < |stack| :: Differ(st.stack[i], st'.stack[i], stack[i])
  }

  /** Main items that are alike but for report size and report count. */
  predicate Alike(a: seq<MainItem>, b: seq<MainItem>) {
    |a| == |b| && forall i | 0 <= i < |a| :: AlikeItems(a[i], b[i])
  }

  predicate AlikeItems(a: MainItem, b: MainItem) {
    a.item == b.item && a.globals.id == b.globals.id && a.globals.rest == b.globals.rest && a.locals == b.locals
  }

  lemma StepsDiffer(st: ParserState, st': ParserState, it: Item, d: Change, stack: seq<Change>)
    requires StatesDiffer(st, st', d, stack)
    ensures StepItem(st, it).Some? <==> StepItem(st', it).Some?
    ensures StepItem(st, it).Some? ==>
              var first, first', next := StepItem(st, it).value, StepItem(st', it).value, NextChange(it, d, stack);
              && StatesDiffer(first.state, first'.state, next.0, next.1)
              && Alike(first'.mains, first.mains) && (first'.mains == first.mains <==> !ExposedAt(it, d))
  {
    if it.prefix / 4 % 4 == 0 {
      MainsDiffer(st, st', it, d);
    }
  }

  lemma MainsDiffer(st: ParserState, st': ParserState, it: Item, d: Change)
    requires Differ(st.globals, st'.globals, d) && st.locals == st'.locals && it.prefix / 4 % 4 == 0
    ensures
      var main, main' := MainItem(it, Applying(st.globals, it.prefix), st.locals),
                         MainItem(it, Applying(st'.globals, it.prefix), st'.locals);
      AlikeItems(main', main) && (main' == main <==> !ExposedAt(it, d))
  {
  }

  lemma SplitMains(a: seq<MainItem>, b: seq<MainItem>, a': seq<MainItem>, b': seq<MainItem>)
    requires Alike(a, a') && Alike(b, b')
    ensures Alike(a + b, a' + b') && (a + b == a' + b' <==> a == a' && b == b')
  {
    if a + b == a' + b' {
      assert (a + b)[..|a|] == a && (a' + b')[..|a|] == a' && (a + b)[|a|..] == b && (a' + b')[|a|..] == b';
    }
  }

  /** From states that differ, main items are found that are alike, and they are
      the same exactly when none is exposed. */
  lemma {:induction false} MeaningsDiffer(st: ParserState, st': ParserState, items: seq<Item>, d: Change,
                                          stack: seq<Change>)
    requires StatesDiffer(st, st', d, stack)
    ensures Interpret(st, items).Some? <==> Interpret(st', items).Some?
    ensures Interpret(st, items).Some? ==>
              var mains, mains' := Interpret(st, items).value.mains, Interpret(st', items).value.mains;
              Alike(mains', mains) && (mains' == mains <==> !Exposed(items, d, stack))
    decreases |items|
  {
    if items != [] {
      StepsDiffer(st, st', items[0], d, stack);
      if StepItem(st, items[0]).Some? {
        var first, first' := StepItem(st, items[0]).value, StepItem(st', items[0]).value;
        var next := NextChange(items[0], d, stack);
        MeaningsDiffer(first.state, first'.state, items[1..], next.0, next.1);
        if Interpret(first.state, items[1..]).Some? {
          SplitMains(first'.mains, Interpret(first'.state, items[1..]).value.mains,
                     first.mains, Interpret(first.state, items[1..]).value.mains);
        }
      }
    }
  }

  // ---------------------------------------------------------------------
  // Behind the block

  lemma BehindDiffers(st: ParserState)
    ensures StatesDiffer(st, st.(globals := Sized(st.globals)), Change(st.globals.size != 16, st.globals.count != 1),
                         Unchanged(|st.stack|))
  {
  }

  /** Any items behind the block are read as without it exactly when a parser
      rejects them, or none of them is exposed. */
  lemma SuffixExact(st: ParserState, rest: seq<Item>)
    ensures
      var behind := st.(globals := Sized(st.globals));
      && (Interpret(behind, rest).Some? <==> Interpret(st, rest).Some?)
      && (Mains(Interpret(behind, rest)) == Mains(Interpret(st, rest)) <==>
            Interpret(st, rest).None? || !ExposedBehind(st, rest))
      && (Interpret(st, rest).Some? ==> Alike(Interpret(behind, rest).value.mains, Interpret(st, rest).value.mains))
  {
    BehindDiffers(st);
    MeaningsDiffer(st, st.(globals := Sized(st.globals)), rest, Change(st.globals.size != 16, st.globals.count != 1),
                   Unchanged(|st.stack|));
  }

  lemma {:induction false} NeverExposed(items: seq<Item>, n: nat)
    ensures !Exposed(items, NO_CHANGE, Unchanged(n))
    decreases |items|
  {
    if items != [] {
      var next := NextChange(items[0], NO_CHANGE, Unchanged(n));
      var k := |next.1|;
      assert next.1 == Unchanged(k) && next.0 == NO_CHANGE;
      NeverExposed(items[1..], k);
    }
  }

  /** Where size and count were 16 and 1 nothing is exposed. */
  lemma SizedAlready(st: ParserState, rest: seq<Item>)
    ensures st.globals.size == 16 && st.globals.count == 1 ==>
              !ExposedBehind(st, rest) && st.(globals := Sized(st.globals)) == st
  {
    NeverExposed(rest, |st.stack|);
  }

  /** And with any other size or count the very next input item is: only with
      those is every continuation read as before. */
  lemma SizesMatter(st: ParserState)
    ensures
      var behind := st.(globals := Sized(st.globals));
      (forall rest :: Mains(Interpret(behind, rest)) == Mains(Interpret(st, rest))) <==>
      st.globals.size == 16 && st.globals.count == 1
  {
    var behind := st.(globals := Sized(st.globals));
    var input := [Item(INPUT, [0x02])];
    SuffixExact(st, input);
    assert ExposedAt(input[0], Change(st.globals.size != 16, st.globals.count != 1)) <==>
           st.globals.size != 16 || st.globals.count != 1;
    var next := ReadInput(st, []);
    assert input + [] == input;
    SizedAlready(st, input);
    assert Mains(Interpret(behind, input)) == Mains(Interpret(st, input)) ==> behind == st;
  }
}
