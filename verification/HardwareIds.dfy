/** devcon sethwid: the edit script for the hardware ids of a device. */
module HardwareIds {
  import opened CaseFold
  import opened MultiSz
  import opened TextLists

  // ---------------------------------------------------------------------
  // What a script means

  datatype Prefix = Clear | Better | Worse | Delete | Plain

  /** A sub-command: its prefix and the hardware id it names. */
  datatype Command = Command(prefix: Prefix, id: string)

  function ParseCommand(arg: string): Command {
    if arg == [] then Command(Plain, arg)
    else if arg[0] == '=' then Command(Clear, arg[1..])
    else if arg[0] == '+' then Command(Better, arg[1..])
    else if arg[0] == '-' then Command(Worse, arg[1..])
    else if arg[0] == '!' then Command(Delete, arg[1..])
    else Command(Plain, arg)
  }

  /** The list, and the mark behind the id that was inserted last; -1 stands for
      the end of the list. */
  datatype Edit = Edit(list: seq<string>, mark: int)

  const AT_END := -1
  const NO_INSERT := -2

  function Marked(e: Edit, prefix: Prefix): Edit {
    match prefix
    case Clear => Edit([], 0)
    case Better => e.(mark := 0)
    case Worse => e.(mark := AT_END)
    case Delete => e.(mark := NO_INSERT)
    case Plain => e
  }

  function Place(e: Edit): int {
    if e.mark == AT_END || e.mark > |e.list| then |e.list| else e.mark
  }

  /** The id taken out wherever it is, and put in at the place unless there is
      none. */
  function Placed(list: seq<string>, place: int, id: string): seq<string>
    requires place <= |list|
  {
    if place < 0 then Without(list, id)
    else Without(list[..place], id) + [id] + Without(list[place..], id)
  }

  function Apply(e: Edit, c: Command): Edit {
    var m := Marked(e, c.prefix);
    Edit(Placed(m.list, Place(m), c.id), Place(m) + 1)
  }

  /** What the script makes of a list; nothing when a command names no id. */
  function Script(e: Edit, commands: seq<Command>): Option<Edit> {
    if commands == [] then Some(e)
    else
      var last := commands[|commands| - 1];
      match Script(e, commands[..|commands| - 1])
      case None => None
      case Some(before) => if last.id == [] then None else Some(Apply(before, last))
  }

  function Commands(args: seq<string>): seq<Command> {
    seq(|args|, i requires 0 <= i < |args| => ParseCommand(args[i]))
  }

  // ---------------------------------------------------------------------
  // What a script does to the list

  /** A mark is never worse than "no insertion". */
  lemma {:induction false} MarkRange(e: Edit, commands: seq<Command>)
    requires e.mark >= AT_END
    requires Script(e, commands).Some?
    ensures Script(e, commands).value.mark >= AT_END
  {
    if commands != [] {
      MarkRange(e, commands[..|commands| - 1]);
    }
  }

  /** One command settles how often the id that it names occurs; a clearing one
      settles every id. */
  predicate Settles(c: Command, id: string) {
    c.prefix == Clear || SameText(c.id, id)
  }

  lemma ApplyOccurrences(e: Edit, c: Command, id: string)
    requires e.mark >= AT_END
    ensures
      Occurrences(Apply(e, c).list, id) ==
      if SameText(c.id, id) then (if c.prefix == Delete then 0 else 1)
      else if c.prefix == Clear then 0
      else Occurrences(e.list, id)
  {
    var m := Marked(e, c.prefix);
    var place := Place(m);
    OccurrencesWithout(m.list, c.id, id);
    if place >= 0 {
      var before, behind := m.list[..place], m.list[place..];
      OccurrencesConcat(Without(before, c.id) + [c.id], Without(behind, c.id), id);
      OccurrencesConcat(Without(before, c.id), [c.id], id);
      OccurrencesOne(c.id, id);
      OccurrencesWithout(before, c.id, id);
      OccurrencesWithout(behind, c.id, id);
      OccurrencesConcat(before, behind, id);
      assert before + behind == m.list;
    }
  }

  /** An id that no command settles occurs as often as before the script. */
  lemma {:induction false} Unsettled(e: Edit, commands: seq<Command>, id: string)
    requires e.mark >= AT_END && Script(e, commands).Some?
    requires forall k | 0 <= k < |commands| :: !Settles(commands[k], id)
    ensures Occurrences(Script(e, commands).value.list, id) == Occurrences(e.list, id)
  {
    if commands != [] {
      var n := |commands| - 1;
      MarkRange(e, commands[..n]);
      Unsettled(e, commands[..n], id);
      assert !Settles(commands[n], id);
      ApplyOccurrences(Script(e, commands[..n]).value, commands[n], id);
    }
  }

  /** The last command that settles an id decides: it occurs once if that command
      names it without deleting it, and not at all otherwise. */
  lemma {:induction false} SettledBy(e: Edit, commands: seq<Command>, id: string, k: nat)
    requires e.mark >= AT_END && Script(e, commands).Some?
    requires k < |commands| && Settles(commands[k], id)
    requires forall j | k < j < |commands| :: !Settles(commands[j], id)
    ensures Occurrences(Script(e, commands).value.list, id) ==
            if SameText(commands[k].id, id) && commands[k].prefix != Delete then 1 else 0
  {
    var n := |commands| - 1;
    MarkRange(e, commands[..n]);
    ApplyOccurrences(Script(e, commands[..n]).value, commands[n], id);
    if k < n {
      assert !Settles(commands[n], id);
      SettledBy(e, commands[..n], id, k);
    }
  }

  predicate DuplicateFree(list: seq<string>) {
    forall i, j | 0 <= i < j < |list| :: !SameText(list[i], list[j])
  }

  lemma {:induction false} OnceEach(list: seq<string>, id: string)
    requires DuplicateFree(list)
    ensures Occurrences(list, id) <= 1
  {
    if list != [] {
      OnceEach(list[1..], id);
      if SameText(list[0], id) {
        forall i | 0 <= i < |list[1..]|
          ensures !SameText(list[1..][i], id)
        {
          assert !SameText(list[0], list[i + 1]);
          SameTextTransitive(list[0], id, list[i + 1]);
          SameTextSymmetric(id, list[i + 1]);
        }
        OccurrencesPositive(list[1..], id);
      }
    }
  }

  lemma TwiceSomewhere(list: seq<string>, i: nat, j: nat)
    requires i < j < |list| && SameText(list[i], list[j])
    ensures Occurrences(list, list[j]) >= 2
  {
    assert list == list[..j] + list[j..];
    OnceInEach(list[..j], list[j..], list[j], i);
  }

  lemma OnceInEach(a: seq<string>, b: seq<string>, id: string, i: nat)
    requires i < |a| && SameText(a[i], id) && b != [] && SameText(b[0], id)
    ensures Occurrences(a + b, id) >= 2
  {
    OccurrencesConcat(a, b, id);
    OccurrencesPositive(a, id);
    OccurrencesPositive(b, id);
  }

  lemma LastSettling(commands: seq<Command>, id: string) returns (k: int)
    ensures -1 <= k < |commands|
    ensures k >= 0 ==> Settles(commands[k], id)
    ensures forall j | k < j < |commands| :: !Settles(commands[j], id)
  {
    k := |commands| - 1;
    while k >= 0 && !Settles(commands[k], id)
      invariant -1 <= k < |commands|
      invariant forall j | k < j < |commands| :: !Settles(commands[j], id)
    {
      k := k - 1;
    }
  }

  /** A list in which no id occurs twice stays one. */
  lemma StaysDuplicateFree(e: Edit, commands: seq<Command>)
    requires e.mark >= AT_END && Script(e, commands).Some? && DuplicateFree(e.list)
    ensures DuplicateFree(Script(e, commands).value.list)
  {
    var list := Script(e, commands).value.list;
    forall i, j | 0 <= i < j < |list|
      ensures !SameText(list[i], list[j])
    {
      if SameText(list[i], list[j]) {
        TwiceSomewhere(list, i, j);
        var k := LastSettling(commands, list[j]);
        if k >= 0 {
          SettledBy(e, commands, list[j], k);
        } else {
          Unsettled(e, commands, list[j]);
          OnceEach(e.list, list[j]);
        }
        assert false;
      }
    }
  }

  function Ids(commands: seq<Command>): seq<string> {
    seq(|commands|, i requires 0 <= i < |commands| => commands[i].id)
  }

  lemma ApplyOthers(e: Edit, c: Command, names: seq<string>)
    requires c.prefix != Clear && NamedIn(names, c.id) && e.mark >= AT_END
    ensures Others(Apply(e, c).list, names) == Others(e.list, names)
  {
    var place := Place(Marked(e, c.prefix));
    OthersWithout(e.list, c.id, names);
    if place >= 0 {
      var before, behind := e.list[..place], e.list[place..];
      OthersConcat(Without(before, c.id) + [c.id], Without(behind, c.id), names);
      OthersConcat(Without(before, c.id), [c.id], names);
      OthersOne(c.id, names);
      OthersWithout(before, c.id, names);
      OthersWithout(behind, c.id, names);
      OthersConcat(before, behind, names);
      assert before + behind == e.list;
    }
  }

  lemma {:induction false} OthersKept(e: Edit, commands: seq<Command>, names: seq<string>)
    requires e.mark >= AT_END && Script(e, commands).Some?
    requires forall k | 0 <= k < |commands| :: commands[k].prefix != Clear && NamedIn(names, commands[k].id)
    ensures Others(Script(e, commands).value.list, names) == Others(e.list, names)
  {
    if commands != [] {
      var n := |commands| - 1;
      MarkRange(e, commands[..n]);
      OthersKept(e, commands[..n], names);
      ApplyOthers(Script(e, commands[..n]).value, commands[n], names);
    }
  }

  /** Without a clearing command, the ids that are never named stay, in order. */
  lemma NeverNamed(e: Edit, commands: seq<Command>)
    requires e.mark >= AT_END && Script(e, commands).Some?
    requires forall k | 0 <= k < |commands| :: commands[k].prefix != Clear
    ensures Others(Script(e, commands).value.list, Ids(commands)) == Others(e.list, Ids(commands))
  {
    forall k | 0 <= k < |commands|
      ensures NamedIn(Ids(commands), commands[k].id)
    {
      assert SameText(Ids(commands)[k], commands[k].id);
    }
    OthersKept(e, commands, Ids(commands));
  }

  /** Where an id goes that is put in at a mark: directly behind the one at q
      exactly if everything else between q and the mark is the id itself. */
  lemma GoesBehind(list: seq<string>, q: nat, mark: nat, id: string)
    requires q < mark <= |list| && !SameText(list[q], id)
    ensures
      var at := |Without(list[..mark], id)|;
      var placed := Apply(Edit(list, mark), Command(Plain, id)).list;
      && at < |placed| && placed[at] == id
      && |Without(list[..q], id)| < at && placed[|Without(list[..q], id)|] == list[q]
      && (at == |Without(list[..q], id)| + 1 <==> forall i | q < i < mark :: SameText(list[i], id))
  {
    var between := list[q + 1..mark];
    assert list[..mark] == list[..q] + [list[q]] + between;
    WithoutConcat(list[..q] + [list[q]], between, id);
    WithoutSnoc(list[..q], list[q], id);
    NothingLeft(between, id);
    if forall i | q < i < mark :: SameText(list[i], id) {
      forall i | 0 <= i < |between|
        ensures SameText(between[i], id)
      {
        assert between[i] == list[q + 1 + i];
      }
    }
    if forall i | 0 <= i < |between| :: SameText(between[i], id) {
      forall i | q < i < mark
        ensures SameText(list[i], id)
      {
        assert between[i - q - 1] == list[i];
      }
    }
  }

  predicate DirectlyBehind(list: seq<string>, first: string, second: string) {
    exists i | 0 <= i < |list| - 1 :: list[i] == first && list[i + 1] == second
  }

  /** The place is in the list unless there is none, and the next mark is behind it. */
  lemma PlaceRange(e: Edit, prefix: Prefix)
    requires e.mark >= AT_END && prefix != Delete
    ensures 0 <= Place(Marked(e, prefix)) <= |Marked(e, prefix).list|
  {
  }

  /** An id that occurs once has one place. */
  lemma OnePlace(list: seq<string>, id: string, i: nat, j: nat)
    requires Occurrences(list, id) <= 1 && i < |list| && j < |list| && SameText(list[i], id) && SameText(list[j], id)
    ensures i == j
  {
    if i != j {
      var lo, hi := if i < j then i else j, if i < j then j else i;
      SameTextSymmetric(list[hi], id);
      SameTextTransitive(list[lo], id, list[hi]);
      TwiceSomewhere(list, lo, hi);
      OccurrencesAlike(list, list[hi], id);
      assert false;
    }
  }

  lemma {:induction false} OccurrencesAlike(list: seq<string>, s: string, t: string)
    requires SameText(s, t)
    ensures Occurrences(list, s) == Occurrences(list, t)
  {
    if list != [] {
      OccurrencesAlike(list[1..], s, t);
    }
  }

  lemma {:induction false} WithoutLength(list: seq<string>, id: string)
    ensures |Without(list, id)| + Occurrences(list, id) == |list|
  {
    if list != [] {
      WithoutLength(list[1..], id);
    }
  }

  /** The mark that a command without prefix finds: behind the id inserted before
      it and as many more as were taken out in front. */
  lemma MarkBehind(e: Edit, c: Command)
    requires e.mark >= AT_END && c.prefix != Delete
    ensures
      var m := Marked(e, c.prefix);
      && 0 <= Place(m) <= |m.list|
      && var before, behind := m.list[..Place(m)], Without(m.list[Place(m)..], c.id);
         var first, gone := Without(before, c.id), Occurrences(before, c.id);
         && Apply(e, c).list == first + [c.id] + behind
         && Place(Apply(e, c)) == |first| + 1 + if gone <= |behind| then gone else |behind|
  {
    PlaceRange(e, c.prefix);
    var m := Marked(e, c.prefix);
    WithoutLength(m.list[..Place(m)], c.id);
  }

  /** Where the id goes when the one before it stands behind `first`. */
  lemma BetweenThem(first: seq<string>, x: string, behind: seq<string>, n: nat, id: string) returns (at: nat)
    requires n <= |behind| && !SameText(x, id)
    ensures
      var next := Placed(first + [x] + behind, |first| + 1 + n, id);
      var q := |Without(first, id)|;
      && q < at < |next| && next[q] == x && next[at] == id
      && (at == q + 1 <==> forall i | 0 <= i < n :: SameText(behind[i], id))
  {
    var list := first + [x] + behind;
    var mark := |first| + 1 + n;
    assert list[|first|] == x && list[..|first|] == first;
    GoesBehind(list, |first|, mark, id);
    at := |Without(list[..mark], id)|;
    forall i | |first| < i < mark
      ensures list[i] == behind[i - |first| - 1]
    {
    }
    forall i | 0 <= i < n
      ensures behind[i] == list[i + |first| + 1]
    {
    }
  }

  /** After a command that inserts its id, from any list and any mark, a command
      without prefix puts its own directly behind that one exactly when it is a
      different id and, of the ids behind, as many as were taken out in front are
      all the new one. */
  lemma BehindThePrevious(e: Edit, c: Command, id: string)
    requires e.mark >= AT_END && c.prefix != Delete
    ensures
      var m := Marked(e, c.prefix);
      && 0 <= Place(m) <= |m.list|
      && var before, behind := m.list[..Place(m)], Without(m.list[Place(m)..], c.id);
         DirectlyBehind(Apply(Apply(e, c), Command(Plain, id)).list, c.id, id) <==>
           && !SameText(c.id, id)
           && forall i | 0 <= i < Occurrences(before, c.id) && i < |behind| :: SameText(behind[i], id)
  {
    var m, e', c' := Marked(e, c.prefix), Apply(e, c), Command(Plain, id);
    var next := Apply(e', c').list;
    MarkBehind(e, c);
    ApplyOccurrences(e', c', id);
    ApplyOccurrences(e', c', c.id);
    ApplyOccurrences(e, c, c.id);
    SameTextSymmetric(c.id, id);
    if SameText(c.id, id) {
      if i :| 0 <= i < |next| - 1 && next[i] == c.id && next[i + 1] == id {
        OnePlace(next, id, i, i + 1);
      }
    } else {
      var before, behind := m.list[..Place(m)], Without(m.list[Place(m)..], c.id);
      var n := Place(e') - |Without(before, c.id)| - 1;
      var at := BetweenThem(Without(before, c.id), c.id, behind, n, id);
      assert next == Placed(e'.list, Place(e'), id);
      var q := |Without(Without(before, c.id), id)|;
      NextTo(next, c.id, id, q, at);
    }
  }

  /** Ids that occur once are next to each other exactly when their places are. */
  lemma NextTo(list: seq<string>, first: string, second: string, q: nat, at: nat)
    requires Occurrences(list, first) <= 1 && Occurrences(list, second) <= 1
    requires q < at < |list| && list[q] == first && list[at] == second
    ensures DirectlyBehind(list, first, second) <==> at == q + 1
  {
    if i :| 0 <= i < |list| - 1 && list[i] == first && list[i + 1] == second {
      OnePlace(list, first, i, q);
      OnePlace(list, second, i + 1, at);
    }
  }

  /** The help text promises that it goes behind the previous id. It does not when
      that one had to be taken out in front of the mark. */
  lemma NotBehindThePrevious()
    ensures
      var end := Script(Edit(["x"], AT_END), [Command(Better, "a"), Command(Plain, "a"), Command(Plain, "b")]);
      end == Some(Edit(["a", "x", "b"], 3)) && !DirectlyBehind(end.value.list, "a", "b")
  {
    var c0, c1, c2 := Command(Better, "a"), Command(Plain, "a"), Command(Plain, "b");
    assert [c0, c1, c2][..2] == [c0, c1] && [c0, c1][..1] == [c0] && [c0][..0] == [];
    var e0 := Edit(["x"], AT_END);
    PlacedInFront();
    assert Script(e0, [c0]) == Some(Edit(["a", "x"], 1));
    PlacedAgain();
    assert Script(e0, [c0, c1]) == Some(Edit(["a", "x"], 2));
    PlacedLast();
    AgainInTheWay();
  }

  lemma AgainInTheWay()
    ensures !DirectlyBehind(Apply(Apply(Edit(["a", "x"], 1), Command(Plain, "a")), Command(Plain, "b")).list, "a", "b")
  {
    BehindThePrevious(Edit(["a", "x"], 1), Command(Plain, "a"), "b");
    assert ["a", "x"][..1] == ["a"] && ["a", "x"][1..] == ["x"];
    OccurrencesOne("a", "a");
    WithoutOne("x", "a");
    OtherLetters();
    assert Without(["x"], "a")[0] == "x";
  }

  lemma OtherLetters()
    ensures !SameText("x", "a") && !SameText("a", "b") && !SameText("x", "b")
  {
    assert ToLower("x"[0]) != ToLower("a"[0]) && ToLower("a"[0]) != ToLower("b"[0])
           && ToLower("x"[0]) != ToLower("b"[0]);
  }

  lemma PlacedInFront()
    ensures Placed(["x"], 0, "a") == ["a", "x"]
  {
    assert ["x"][..0] == [] && ["x"][0..] == ["x"];
    WithoutOne("x", "a");
    OtherLetters();
    assert Without([], "a") + ["a"] + Without(["x"], "a") == ["a", "x"];
  }

  lemma PlacedAgain()
    ensures Placed(["a", "x"], 1, "a") == ["a", "x"]
  {
    assert ["a", "x"][..1] == ["a"] && ["a", "x"][1..] == ["x"];
    WithoutOne("a", "a");
    WithoutOne("x", "a");
    OtherLetters();
    assert Without(["a"], "a") + ["a"] + Without(["x"], "a") == ["a", "x"];
  }

  lemma PlacedLast()
    ensures Placed(["a", "x"], 2, "b") == ["a", "x", "b"]
  {
    assert ["a", "x"][..2] == ["a"] + ["x"] && ["a", "x"][2..] == [];
    WithoutOne("a", "b");
    WithoutSnoc(["a"], "x", "b");
    OtherLetters();
    assert Without(["a"] + ["x"], "b") + ["b"] + Without([], "b") == ["a", "x", "b"];
  }

  // ---------------------------------------------------------------------
  // What arguments mean

  /** What a script makes of a list, from the text of its arguments. */
  function Edited(e: Edit, args: seq<string>): Option<Edit> {
    Script(e, Commands(args))
  }

  lemma OneMore(e: Edit, args: seq<string>, arg: string)
    requires Edited(e, args + [arg]).Some?
    ensures Edited(e, args).Some?
    ensures Edited(e, args + [arg]).value == Apply(Edited(e, args).value, ParseCommand(arg))
  {
    var commands := Commands(args + [arg]);
    assert commands[..|args|] == Commands(args) && commands[|args|] == ParseCommand(arg);
  }

  /** The argument "+id" adds or moves the id to the head of the list, "-id" to its
      end, and both leave the others as they were. */
  lemma HeadAndEnd(e: Edit, args: seq<string>, id: string)
    requires e.mark >= AT_END
    ensures Edited(e, args + ["+" + id]).Some? ==>
              && Edited(e, args).Some?
              && Edited(e, args + ["+" + id]).value.list == [id] + Without(Edited(e, args).value.list, id)
    ensures Edited(e, args + ["-" + id]).Some? ==>
              && Edited(e, args).Some?
              && Edited(e, args + ["-" + id]).value.list == Without(Edited(e, args).value.list, id) + [id]
  {
    if Edited(e, args + ["+" + id]).Some? {
      OneMore(e, args, "+" + id);
      Text('+', id);
      var list := Edited(e, args).value.list;
      assert list[..0] == [] && list[0..] == list;
    }
    if Edited(e, args + ["-" + id]).Some? {
      OneMore(e, args, "-" + id);
      Text('-', id);
      var list := Edited(e, args).value.list;
      assert list[..|list|] == list && list[|list|..] == [];
    }
  }

  lemma Text(c: char, id: string)
    ensures ([c] + id)[0] == c && ([c] + id)[1..] == id
  {
  }

  /** The argument "=id" leaves that id alone in the list, and "!id" all others. */
  lemma ClearAndDelete(e: Edit, args: seq<string>, id: string)
    requires e.mark >= AT_END
    ensures Edited(e, args + ["=" + id]).Some? ==> Edited(e, args + ["=" + id]).value.list == [id]
    ensures Edited(e, args + ["!" + id]).Some? ==>
              && Edited(e, args).Some?
              && Edited(e, args + ["!" + id]).value.list == Without(Edited(e, args).value.list, id)
  {
    if Edited(e, args + ["=" + id]).Some? {
      OneMore(e, args, "=" + id);
      Text('=', id);
      var empty: seq<string> := [];
      assert empty[..0] == [] && empty[0..] == [];
    }
    if Edited(e, args + ["!" + id]).Some? {
      OneMore(e, args, "!" + id);
      Text('!', id);
    }
  }

  /** What is left without an id: the others in their order, none of them that id
      in any case, and nothing else goes. */
  lemma {:induction false} WithoutExact(list: seq<string>, id: string)
    ensures forall i | 0 <= i < |Without(list, id)| :: !Recased(Without(list, id)[i], id)
    ensures (forall i | 0 <= i < |list| :: !Recased(list[i], id)) ==> Without(list, id) == list
  {
    if list != [] {
      SameTextExact(list[0], id);
      WithoutExact(list[1..], id);
      assert list == [list[0]] + list[1..];
    }
  }

  /** Any other argument is an id as a whole, and is listed. */
  lemma PlainListed(e: Edit, args: seq<string>, id: string)
    requires e.mark >= AT_END && id != [] && id[0] !in "=+-!"
    requires Edited(e, args + [id]).Some?
    ensures id in Edited(e, args + [id]).value.list
  {
    OneMore(e, args, id);
    MarkRange(e, Commands(args));
    var before := Edited(e, args).value;
    assert "=+-!"[0] == '=' && "=+-!"[1] == '+' && "=+-!"[2] == '-' && "=+-!"[3] == '!';
    assert ParseCommand(id) == Command(Plain, id);
    var placed := Placed(before.list, Place(before), id);
    assert placed[|Without(before.list[..Place(before)], id)|] == id;
  }

  /** A script fails exactly when an argument names no id. */
  lemma {:induction false} EditedExact(e: Edit, args: seq<string>)
    ensures Edited(e, args).Some? <==>
              forall i | 0 <= i < |args| :: args[i] != [] && (args[i][0] in "=+-!" ==> |args[i]| > 1)
  {
    assert "=+-!"[0] == '=' && "=+-!"[1] == '+' && "=+-!"[2] == '-' && "=+-!"[3] == '!';
    if args != [] {
      var n := |args| - 1;
      EditedExact(e, args[..n]);
      assert Commands(args)[..n] == Commands(args[..n]);
      assert ParseCommand(args[n]).id == [] <==> args[n] == [] || (args[n][0] in "=+-!" && |args[n]| == 1);
    }
  }

  // ---------------------------------------------------------------------
  // The callback

  const EXIT_OK := 0
  const EXIT_FAIL := 2
  const EXIT_USAGE := 3

  lemma CleanPlaced(list: seq<string>, place: int, id: string)
    requires Clean(list) && id != [] && NUL !in id && place <= |list|
    ensures Clean(Placed(list, place, id))
  {
    var cut := if place < 0 then 0 else place;
    WithoutMembers(list[..cut], id);
    WithoutMembers(list[cut..], id);
    WithoutMembers(list, id);
    var placed := Placed(list, place, id);
    forall i | 0 <= i < |placed|
      ensures placed[i] != [] && NUL !in placed[i]
    {
      assert placed[i] in list || placed[i] == id;
    }
  }

  /** Copy the entries from `from` up to `to` that are not the id. */
  method CopyOthers(hwlist: seq<string>, from: nat, to: nat, id: string, tmpArray: array<string>, start: nat)
    returns (dst: nat)
    requires from <= to <= |hwlist| && start + (to - from) <= tmpArray.Length
    modifies tmpArray
    ensures start <= dst <= start + (to - from)
    ensures tmpArray[..dst] == old(tmpArray[..start]) + Without(hwlist[from..to], id)
  {
    dst := start;
    var ent := from;
    assert hwlist[from..from] == [];
    while ent < to
      invariant from <= ent <= to && start <= dst <= start + (ent - from)
      invariant tmpArray[..dst] == old(tmpArray[..start]) + Without(hwlist[from..ent], id)
    {
      assert hwlist[from..ent + 1] == hwlist[from..ent] + [hwlist[ent]];
      WithoutSnoc(hwlist[from..ent], hwlist[ent], id);
      if !SameText(hwlist[ent], id) {
        tmpArray[dst] := hwlist[ent];
        dst := dst + 1;
      }
      ent := ent + 1;
    }
  }

  lemma ToTheEnd(list: seq<string>, from: nat)
    requires from <= |list|
    ensures list[from..|list|] == list[from..]
  {
  }

  /** The rebuilt list of one command. */
  method Rebuild(hwlist: seq<string>, mark: int, id: string) returns (list: seq<string>)
    requires mark <= |hwlist|
    ensures list == Placed(hwlist, mark, id)
  {
    var cnt := |hwlist|;
    var tmpArray := new string[cnt + 2](_ => "");
    var dst, ent: nat := 0, 0;
    if mark >= 0 {
      ent := mark;
      dst := CopyOthers(hwlist, 0, mark, id, tmpArray, 0);
      tmpArray[dst] := id;
      dst := dst + 1;
      assert tmpArray[..dst] == Without(hwlist[..mark], id) + [id];
    }
    ToTheEnd(hwlist, ent);
    dst := CopyOthers(hwlist, ent, cnt, id, tmpArray, dst);
    list := tmpArray[..dst];
  }

  /** One sub-command: the list is rebuilt, unless the command names no id. */
  method EditOnce(hwlist: seq<string>, mark: int, arg: string)
    returns (done: bool, list: seq<string>, next: int, multiSz: array<char>)
    requires Clean(hwlist) && NUL !in arg && mark >= AT_END
    ensures done <==> ParseCommand(arg).id != []
    ensures done ==> Edit(list, next) == Apply(Edit(hwlist, mark), ParseCommand(arg))
    ensures done ==> next >= AT_END && Clean(list) && multiSz[..] == Serialise(list)
  {
    var op := arg;
    list, next := hwlist, mark;
    if op != [] && op[0] == '=' {
      list, next, op := [], 0, op[1..];
    } else if op != [] && op[0] == '+' {
      next, op := 0, op[1..];
    } else if op != [] && op[0] == '-' {
      next, op := AT_END, op[1..];
    } else if op != [] && op[0] == '!' {
      next, op := NO_INSERT, op[1..];
    }
    if op == [] {
      multiSz := new char[0];
      return false, list, next, multiSz;
    }
    if next == AT_END || next > |list| {
      next := |list|;
    }
    CleanPlaced(list, next, op);
    list := Rebuild(list, next, op);
    multiSz := CopyList(list);
    next := next + 1;
    done := true;
  }

  /** The loop over the sub-commands. */
  method EditList(initial: seq<string>, args: seq<string>)
    returns (result: Option<seq<string>>, multiSz: array<char>)
    requires Clean(initial) && NulFree(args)
    ensures result.Some? <==> Script(Edit(initial, AT_END), Commands(args)).Some?
    ensures result.Some? ==> result.value == Script(Edit(initial, AT_END), Commands(args)).value.list
    ensures result.Some? ==> Clean(result.value)
    ensures result.Some? && args != [] ==> multiSz[..] == Serialise(result.value)
  {
    ghost var e0, commands := Edit(initial, AT_END), Commands(args);
    var hwlist, mark := initial, AT_END;
    multiSz := new char[0];
    var i := 0;
    assert commands[..0] == [];
    while i < |args|
      invariant i <= |args| && mark >= AT_END && Clean(hwlist)
      invariant Script(e0, commands[..i]) == Some(Edit(hwlist, mark))
      invariant i > 0 ==> multiSz[..] == Serialise(hwlist)
    {
      ScriptSnoc(e0, commands, i);
      var done;
      done, hwlist, mark, multiSz := EditOnce(hwlist, mark, args[i]);
      if !done {
        ScriptFails(e0, commands, i);
        return None, multiSz;
      }
      i := i + 1;
    }
    assert commands[..i] == commands;
    result := Some(hwlist);
  }

  lemma ScriptSnoc(e: Edit, commands: seq<Command>, i: nat)
    requires i < |commands| && Script(e, commands[..i]).Some?
    ensures Script(e, commands[..i + 1]) ==
            if commands[i].id == [] then None else Some(Apply(Script(e, commands[..i]).value, commands[i]))
  {
    assert commands[..i + 1][..i] == commands[..i];
  }

  lemma {:induction false} ScriptFails(e: Edit, commands: seq<Command>, i: nat)
    requires i < |commands| && Script(e, commands[..i + 1]).None?
    ensures Script(e, commands).None?
    decreases |commands|
  {
    var n := |commands| - 1;
    if i < n {
      assert commands[..n][..i + 1] == commands[..i + 1];
      ScriptFails(e, commands[..n], i);
    } else {
      assert commands[..i + 1] == commands;
    }
  }

  /** What the callbacks of one command line count. */
  class SetHwidContext {
    var skipped: nat
    var modified: nat
  }

  /** The hardware id property of a device, as the registry stores it. */
  class HardwareIdProperty {
    var stored: Option<seq<char>>
  }

  /** The callback for one device. Its property is written only if every
      sub-command succeeded. */
  method SetHwidCallback(context: SetHwidContext, property: HardwareIdProperty, known: bool, rootEnumerated: bool,
                         hwlist: Option<seq<string>>, args: seq<string>, canSet: bool) returns (result: int)
    requires hwlist.Some? ==> Clean(hwlist.value)
    requires NulFree(args)
    modifies context, property
    ensures context.skipped == old(context.skipped) + if known && !rootEnumerated then 1 else 0
    ensures !(known && rootEnumerated) ==>
              result == 0 && property.stored == old(property.stored) && context.modified == old(context.modified)
    ensures known && rootEnumerated ==>
              var final := Script(Edit(if hwlist.Some? then hwlist.value else [], AT_END), Commands(args));
              var written := final.Some? && args != [] && canSet && (final.value.list != [] ==> Fits(final.value.list));
              && property.stored == (if written then Stored(final.value.list) else old(property.stored))
              && result == (if final.None? then 3 else if written || args == [] then 0 else 2)
              && context.modified == old(context.modified) + if result == 0 then 1 else 0
  {
    if !known {
      return EXIT_OK;
    }
    if !rootEnumerated {
      context.skipped := context.skipped + 1;
      return EXIT_OK;
    }
    var list := match hwlist case Some(l) => l case None => [];
    var edited, multiSz := EditList(list, args);
    if edited.None? {
      return EXIT_USAGE;
    }
    if args != [] {
      var final := edited.value;
      if final != [] {
        SafeSerialised(final);
        RoundTrip(final);
        var len := CommittedLength(multiSz);
        JoinedLength(final);
        if CHARACTER_SIZE * len > DWORD_MAX {
          return EXIT_FAIL;
        }
        if !canSet {
          return EXIT_FAIL;
        }
        assert multiSz[..len] == multiSz[..];
        property.stored := Some(multiSz[..len]);
      } else {
        if !canSet {
          return EXIT_FAIL;
        }
        property.stored := None;
      }
    }
    context.modified := context.modified + 1;
    return EXIT_OK;
  }
}
