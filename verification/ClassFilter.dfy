/** devcon classfilter: the edit script for the filter drivers of a class. */
module ClassFilter {
  import opened CaseFold
  import opened MultiSz
  import opened TextLists

  // ---------------------------------------------------------------------
  // What a script means

  datatype Operator = Find | Delete | AddAfter | AddBefore

  datatype Command = Rewind | Act(rewind: bool, operator: Operator, service: string) | Invalid

  function ParseCommand(arg: string): Command {
    if arg == [] then Invalid
    else if arg[0] == '=' then if |arg| == 1 then Rewind else ParseOperator(true, arg[1], arg[2..])
    else ParseOperator(false, arg[0], arg[1..])
  }

  function ParseOperator(rewind: bool, op: char, service: string): Command {
    if service == [] then Invalid
    else if op == '@' then Act(rewind, Find, service)
    else if op == '!' then Act(rewind, Delete, service)
    else if op == '+' then Act(rewind, AddAfter, service)
    else if op == '-' then Act(rewind, AddBefore, service)
    else Invalid
  }

  /** The cursor: in front of the list, or between the services on its left and
      on its right, on one of them or on none. */
  datatype Cursor = InFront(all: seq<string>) | At(left: seq<string>, on: Option<string>, right: seq<string>)

  function OnList(on: Option<string>): seq<string> {
    match on case None => [] case Some(s) => [s]
  }

  function List(c: Cursor): seq<string> {
    match c
    case InFront(all) => all
    case At(left, on, right) => left + OnList(on) + right
  }

  /** What the cursor has passed, and what is still ahead of it. */
  function Passed(c: Cursor): seq<string> {
    match c
    case InFront(_) => []
    case At(left, on, _) => left + OnList(on)
  }

  function Ahead(c: Cursor): seq<string> {
    match c
    case InFront(all) => all
    case At(_, _, right) => right
  }

  function FirstMatch(list: seq<string>, service: string): (k: nat)
    ensures k <= |list|
    ensures forall i | 0 <= i < k :: !SameText(list[i], service)
    ensures k < |list| ==> SameText(list[k], service)
  {
    if list == [] || SameText(list[0], service) then 0 else 1 + FirstMatch(list[1..], service)
  }

  /** One operator; nothing when it fails. Only services that exist are added. */
  function Operate(c: Cursor, op: Operator, service: string, services: set<string>): Option<Cursor> {
    match op
    case AddAfter =>
      if service !in services then None
      else Some(match c
                case InFront(all) => At(all, Some(service), [])
                case At(left, on, right) => At(left + OnList(on), Some(service), right))
    case AddBefore =>
      if service !in services then None
      else Some(match c
                case InFront(all) => At([], Some(service), all)
                case At(left, on, right) => At(left, Some(service), OnList(on) + right))
    case _ =>
      var ahead := Ahead(c);
      var k := FirstMatch(ahead, service);
      if k == |ahead| then None
      else Some(At(Passed(c) + ahead[..k], if op == Find then Some(ahead[k]) else None, ahead[k + 1..]))
  }

  /** How a command line ends: with an error code, or with a list. */
  datatype Result = Failed(code: int) | Finished(cursor: Cursor, modified: bool, usage: bool)

  const EXIT_OK := 0
  const EXIT_REBOOT := 1
  const EXIT_FAIL := 2
  const EXIT_USAGE := 3

  function Apply(c: Cursor, command: Command, services: set<string>): Result {
    match command
    case Invalid => Failed(EXIT_USAGE)
    case Rewind => Finished(InFront(List(c)), false, false)
    case Act(rewind, op, service) =>
      match Operate(if rewind then InFront(List(c)) else c, op, service, services)
      case None => Failed(EXIT_FAIL)
      case Some(next) => Finished(next, op != Find, false)
  }

  /** The commands in turn. A missing argument ends them, and what has been done
      so far stands. */
  function Script(c: Cursor, modified: bool, args: seq<Option<string>>, services: set<string>): Result
    decreases |args|
  {
    if args == [] then Finished(c, modified, false)
    else if args[0].None? then Finished(c, modified, true)
    else
      match Apply(c, ParseCommand(args[0].value), services)
      case Failed(code) => Failed(code)
      case Finished(next, changed, _) => Script(next, modified || changed, args[1..], services)
  }

  // ---------------------------------------------------------------------
  // What a script does to the list

  /** The services that a command adds and takes away, as far as one name goes. */
  function Added(command: Command, name: string): nat {
    if command.Act? && (command.operator == AddAfter || command.operator == AddBefore)
       && SameText(command.service, name) then 1 else 0
  }

  function Removed(command: Command, name: string): nat {
    if command.Act? && command.operator == Delete && SameText(command.service, name) then 1 else 0
  }

  function Sum(args: seq<Option<string>>, name: string): int {
    if args == [] || args[0].None? then 0
    else
      var command := ParseCommand(args[0].value);
      Added(command, name) - Removed(command, name) + Sum(args[1..], name)
  }

  /** An addition puts one service somewhere into the list. */
  lemma AddShape(c: Cursor, op: Operator, service: string, services: set<string>)
    returns (before: seq<string>, behind: seq<string>)
    requires (op == AddAfter || op == AddBefore) && service in services
    ensures List(c) == before + behind
    ensures List(Operate(c, op, service, services).value) == before + [service] + behind
  {
    match c
    case InFront(all) =>
      before := if op == AddAfter then all else [];
      behind := if op == AddAfter then [] else all;
    case At(left, on, right) =>
      before := if op == AddAfter then left + OnList(on) else left;
      behind := if op == AddAfter then right else OnList(on) + right;
  }

  /** A search stops at one service of the list; a deletion takes it out. */
  lemma SearchShape(c: Cursor, op: Operator, service: string, services: set<string>)
    returns (before: seq<string>, found: string, behind: seq<string>)
    requires (op == Find || op == Delete) && Operate(c, op, service, services).Some?
    ensures SameText(found, service) && List(c) == before + [found] + behind
    ensures List(Operate(c, op, service, services).value) == if op == Find then List(c) else before + behind
  {
    var ahead := Ahead(c);
    var k := FirstMatch(ahead, service);
    before, found, behind := Passed(c) + ahead[..k], ahead[k], ahead[k + 1..];
    PassedAhead(c);
    Cut(Passed(c), ahead, k);
    assert before + [] == before;
  }

  lemma PassedAhead(c: Cursor)
    ensures List(c) == Passed(c) + Ahead(c)
  {
  }

  lemma Cut(passed: seq<string>, ahead: seq<string>, k: nat)
    requires k < |ahead|
    ensures passed + ahead == passed + ahead[..k] + [ahead[k]] + ahead[k + 1..]
  {
  }

  lemma InsertOccurrences(before: seq<string>, s: string, behind: seq<string>, name: string)
    ensures Occurrences(before + [s] + behind, name) ==
            Occurrences(before + behind, name) + if SameText(s, name) then 1 else 0
  {
    OccurrencesConcat(before + [s], behind, name);
    OccurrencesConcat(before, [s], name);
    OccurrencesOne(s, name);
    OccurrencesConcat(before, behind, name);
  }

  lemma InsertOthers(before: seq<string>, s: string, behind: seq<string>, names: seq<string>)
    requires NamedIn(names, s)
    ensures Others(before + [s] + behind, names) == Others(before + behind, names)
  {
    OthersConcat(before + [s], behind, names);
    OthersConcat(before, [s], names);
    OthersOne(s, names);
    OthersConcat(before, behind, names);
  }

  lemma ApplyOccurrences(c: Cursor, command: Command, services: set<string>, name: string)
    requires Apply(c, command, services).Finished?
    ensures Occurrences(List(Apply(c, command, services).cursor), name) ==
            Occurrences(List(c), name) + Added(command, name) - Removed(command, name)
  {
    if command.Act? {
      var start := if command.rewind then InFront(List(c)) else c;
      if command.operator == Find || command.operator == Delete {
        var before, found, behind := SearchShape(start, command.operator, command.service, services);
        InsertOccurrences(before, found, behind, name);
        SameTextTransitive(found, command.service, name);
      } else {
        var before, behind := AddShape(start, command.operator, command.service, services);
        InsertOccurrences(before, command.service, behind, name);
      }
    }
  }

  /** Conservation: after any script that does not fail, each service is there as
      often as before, plus the times it was added, minus the times it was
      deleted. */
  lemma {:induction false} Conservation(c: Cursor, modified: bool, args: seq<Option<string>>, services: set<string>,
                                        name: string)
    requires Script(c, modified, args, services).Finished?
    ensures Occurrences(List(Script(c, modified, args, services).cursor), name) ==
            Occurrences(List(c), name) + Sum(args, name)
    decreases |args|
  {
    if args != [] && args[0].Some? {
      var command := ParseCommand(args[0].value);
      var next := Apply(c, command, services);
      ApplyOccurrences(c, command, services, name);
      Conservation(next.cursor, modified || next.modified, args[1..], services, name);
    }
  }

  /** The names that the commands add or delete. */
  predicate TouchesOnly(args: seq<Option<string>>, names: seq<string>) {
    forall i | 0 <= i < |args| && args[i].Some? ::
      var command := ParseCommand(args[i].value);
      command.Act? && command.operator != Find ==> NamedIn(names, command.service)
  }

  lemma ApplyOthers(c: Cursor, command: Command, services: set<string>, names: seq<string>)
    requires Apply(c, command, services).Finished?
    requires command.Act? && command.operator != Find ==> NamedIn(names, command.service)
    ensures Others(List(Apply(c, command, services).cursor), names) == Others(List(c), names)
  {
    if command.Act? {
      var start := if command.rewind then InFront(List(c)) else c;
      if command.operator == Find || command.operator == Delete {
        var before, found, behind := SearchShape(start, command.operator, command.service, services);
        if command.operator == Delete {
          NamedAlike(names, command.service, found);
          InsertOthers(before, found, behind, names);
        }
      } else {
        var before, behind := AddShape(start, command.operator, command.service, services);
        InsertOthers(before, command.service, behind, names);
      }
    }
  }

  /** The services that a script neither adds nor deletes stay, in their order. */
  lemma {:induction false} OthersKept(c: Cursor, modified: bool, args: seq<Option<string>>, services: set<string>,
                                      names: seq<string>)
    requires Script(c, modified, args, services).Finished? && TouchesOnly(args, names)
    ensures Others(List(Script(c, modified, args, services).cursor), names) == Others(List(c), names)
    decreases |args|
  {
    if args != [] && args[0].Some? {
      var command := ParseCommand(args[0].value);
      var next := Apply(c, command, services);
      ApplyOthers(c, command, services, names);
      assert TouchesOnly(args[1..], names) by {
        forall i | 0 <= i < |args[1..]| && args[1..][i].Some?
          ensures var command := ParseCommand(args[1..][i].value);
                  command.Act? && command.operator != Find ==> NamedIn(names, command.service)
        {
          assert args[1..][i] == args[i + 1];
        }
      }
      OthersKept(next.cursor, modified || next.modified, args[1..], services, names);
    }
  }

  /** The cursor only moves forward, except where a service is added before the
      one that it is on: that one is ahead of it again. */
  lemma MovesForward(c: Cursor, op: Operator, service: string, services: set<string>)
    requires Operate(c, op, service, services).Some?
    ensures
      var ahead, next := Ahead(c), Ahead(Operate(c, op, service, services).value);
      (|next| <= |ahead| && next == ahead[|ahead| - |next|..]) <==> !(op == AddBefore && c.At? && c.on.Some?)
  {
  }

  // ---------------------------------------------------------------------
  // What arguments mean

  /** What a single argument does from a cursor. */
  function One(c: Cursor, arg: string, services: set<string>): Result {
    Script(c, false, [Some(arg)], services)
  }

  lemma OneArgument(c: Cursor, arg: string, services: set<string>)
    ensures One(c, arg, services) == Apply(c, ParseCommand(arg), services)
  {
    var args, r := [Some(arg)], Apply(c, ParseCommand(arg), services);
    assert args[1..] == [];
    assert r.Finished? ==> !r.usage && Script(r.cursor, r.modified, [], services) == r;
  }

  lemma Text(op: char, service: string)
    ensures ([op] + service)[0] == op && ([op] + service)[1..] == service
  {
  }

  /** A script is its arguments one after the other. */
  lemma {:induction false} InTurn(c: Cursor, modified: bool, args: seq<Option<string>>, more: seq<Option<string>>,
                                  services: set<string>)
    ensures
      Script(c, modified, args + more, services) ==
        match Script(c, modified, args, services)
        case Failed(code) => Failed(code)
        case Finished(next, changed, usage) =>
          if usage then Finished(next, changed, usage) else Script(next, changed, more, services)
    decreases |args|
  {
    if args == [] {
      assert args + more == more;
    } else {
      assert (args + more)[1..] == args[1..] + more;
      if args[0].Some? {
        var r := Apply(c, ParseCommand(args[0].value), services);
        if r.Finished? {
          InTurn(r.cursor, modified || r.modified, args[1..], more, services);
        }
      }
    }
  }

  /** The argument left this list, and the cursor at this place of it. */
  ghost predicate Leaves(r: Result, list: seq<string>, after: int, span: int, changed: bool) {
    r.Finished? && !r.usage && r.modified == changed && Represents(r.cursor, list, after, span)
  }

  /** "+service" adds a service behind the one that the cursor is on, and at the end
      of the list when it is in front; "-service" adds it before that one, and at
      the head. Either moves the cursor on to it. */
  lemma PlusAndMinus(c: Cursor, list: seq<string>, after: int, span: int, service: string, services: set<string>)
    requires Represents(c, list, after, span) && service != []
    ensures service !in services ==>
              One(c, "+" + service, services) == Failed(2) && One(c, "-" + service, services) == Failed(2)
    ensures service in services ==>
              var behind, before := if after < 0 then |list| else after + span, if after < 0 then 0 else after;
              && Leaves(One(c, "+" + service, services), list[..behind] + [service] + list[behind..], behind, 1, true)
              && Leaves(One(c, "-" + service, services), list[..before] + [service] + list[before..], before, 1, true)
  {
    OneArgument(c, "+" + service, services);
    OneArgument(c, "-" + service, services);
    Text('+', service);
    Text('-', service);
    if service in services {
      var behind, before := if after < 0 then |list| else after + span, if after < 0 then 0 else after;
      var plus := AddRepresents(AddAfter, service, list, after, span, services, c, behind);
      var minus := AddRepresents(AddBefore, service, list, after, span, services, c, before);
    }
  }

  /** The first service of the name behind the cursor, in any case of its letters. */
  predicate NextAt(list: seq<string>, after: int, span: int, service: string, k: int) {
    && 0 <= after + span <= k < |list| && Recased(list[k], service)
    && forall i | after + span <= i < k :: !Recased(list[i], service)
  }

  lemma NextExact(list: seq<string>, after: int, span: int, service: string)
    requires 0 <= after + span <= |list|
    ensures
      var k := after + span + FirstMatch(list[after + span..], service);
      && (k < |list| ==> NextAt(list, after, span, service, k))
      && (k == |list| ==> forall i | after + span <= i < |list| :: !Recased(list[i], service))
  {
    var start := after + span;
    forall i | start <= i < |list|
      ensures Recased(list[i], service) <==> SameText(list[start..][i - start], service)
    {
      SameTextExact(list[i], service);
    }
  }

  lemma SearchDone(c: Cursor, op: Operator, list: seq<string>, after: int, span: int, service: string,
                   services: set<string>, arg: string, k: int)
    requires Represents(c, list, after, span) && service != [] && (op == Find || op == Delete)
    requires ParseCommand(arg) == Act(false, op, service) && NextAt(list, after, span, service, k)
    ensures if op == Find then Leaves(One(c, arg, services), list, k, 1, false)
            else Leaves(One(c, arg, services), list[..k] + list[k + 1..], k, 0, true)
  {
    OneArgument(c, arg, services);
    RepresentedList(c, list, after, span);
    NextExact(list, after, span, service);
    assert k == after + span + FirstMatch(list[after + span..], service);
    var next := FindRepresents(op, service, list, after + span, services, c, k);
  }

  lemma SearchFailed(c: Cursor, op: Operator, list: seq<string>, after: int, span: int, service: string,
                     services: set<string>, arg: string)
    requires Represents(c, list, after, span) && service != [] && (op == Find || op == Delete)
    requires ParseCommand(arg) == Act(false, op, service)
    requires forall i | after + span <= i < |list| :: !Recased(list[i], service)
    ensures One(c, arg, services) == Failed(2)
  {
    OneArgument(c, arg, services);
    RepresentedList(c, list, after, span);
    NextExact(list, after, span, service);
    var next := FindRepresents(op, service, list, after + span, services, c, |list|);
  }

  /** "@service" moves the cursor to the next service of that name and leaves the
      list as it is; "!service" takes it out. Without one they fail. */
  lemma AtAndBang(c: Cursor, list: seq<string>, after: int, span: int, service: string, services: set<string>)
    requires Represents(c, list, after, span) && service != []
    ensures forall k | NextAt(list, after, span, service, k) ::
              && Leaves(One(c, "@" + service, services), list, k, 1, false)
              && Leaves(One(c, "!" + service, services), list[..k] + list[k + 1..], k, 0, true)
    ensures (forall i | after + span <= i < |list| :: !Recased(list[i], service)) ==>
              One(c, "@" + service, services) == Failed(2) && One(c, "!" + service, services) == Failed(2)
  {
    Text('@', service);
    Text('!', service);
    forall k | NextAt(list, after, span, service, k)
      ensures Leaves(One(c, "@" + service, services), list, k, 1, false)
      ensures Leaves(One(c, "!" + service, services), list[..k] + list[k + 1..], k, 0, true)
    {
      SearchDone(c, Find, list, after, span, service, services, "@" + service, k);
      SearchDone(c, Delete, list, after, span, service, services, "!" + service, k);
    }
    if forall i | after + span <= i < |list| :: !Recased(list[i], service) {
      SearchFailed(c, Find, list, after, span, service, services, "@" + service);
      SearchFailed(c, Delete, list, after, span, service, services, "!" + service);
    }
  }

  /** "=" puts the cursor in front of the list, and so does a "=" before another
      operator. Every other argument is an error. */
  lemma EqualsAndOthers(c: Cursor, list: seq<string>, after: int, span: int, arg: string, services: set<string>)
    requires Represents(c, list, after, span)
    ensures Leaves(One(c, "=", services), list, -1, 1, false)
    ensures arg != [] && arg[0] != '=' ==> One(c, "=" + arg, services) == One(InFront(list), arg, services)
    ensures arg == [] || (arg[0] != '=' && (arg[0] !in "@!+-" || |arg| == 1)) ==> One(c, arg, services) == Failed(3)
    ensures One(c, "==" + arg, services) == Failed(3)
  {
    OneArgument(c, "==" + arg, services);
    assert ("==" + arg)[0] == '=' && ("==" + arg)[1] == '=';
    OneArgument(c, "=", services);
    OneArgument(c, arg, services);
    RepresentedList(c, list, after, span);
    assert "@!+-"[0] == '@' && "@!+-"[1] == '!' && "@!+-"[2] == '+' && "@!+-"[3] == '-';
    if arg != [] && arg[0] != '=' {
      OneArgument(c, "=" + arg, services);
      OneArgument(InFront(list), arg, services);
      assert ("=" + arg)[1] == arg[0] && ("=" + arg)[2..] == arg[1..];
      RewoundOperator(c, arg[0], arg[1..], services);
    }
  }

  // ---------------------------------------------------------------------
  // The command

  /** The position that the program keeps: an index and how many services it
      covers, -1 and 1 in front of the list. */
  ghost predicate Represents(c: Cursor, list: seq<string>, after: int, span: int) {
    if after == -1 then span == 1 && c == InFront(list)
    else
      && 0 <= after && 0 <= span <= 1 && after + span <= |list|
      && c == At(list[..after], if span == 1 then Some(list[after]) else None, list[after + span..])
  }

  lemma RepresentedList(c: Cursor, list: seq<string>, after: int, span: int)
    requires Represents(c, list, after, span)
    ensures List(c) == list
    ensures Passed(c) == list[..after + span] && Ahead(c) == list[after + span..]
  {
  }

  method Search(list: seq<string>, start: nat, service: string) returns (after: nat)
    requires start <= |list|
    ensures after == start + FirstMatch(list[start..], service)
  {
    after := start;
    while after < |list| && !SameText(list[after], service)
      invariant start <= after <= |list|
      invariant start + FirstMatch(list[start..], service) == after + FirstMatch(list[after..], service)
    {
      assert list[after..][1..] == list[after + 1..];
      after := after + 1;
    }
  }

  /** The rest moves up by one, in place. */
  method RemoveAt(list: seq<string>, after: nat) returns (rest: seq<string>)
    requires after < |list|
    ensures rest == list[..after] + list[after + 1..]
  {
    var multiVal := new string[|list|](i requires 0 <= i < |list| => list[i]);
    var c := after;
    while c + 1 < multiVal.Length
      invariant after <= c < multiVal.Length
      invariant multiVal[..c] == list[..after] + list[after + 1..c + 1]
      invariant forall i | c <= i < multiVal.Length :: multiVal[i] == list[i]
    {
      multiVal[c] := multiVal[c + 1];
      c := c + 1;
    }
    return multiVal[..c];
  }

  method InsertAt(list: seq<string>, mark: nat, service: string) returns (longer: seq<string>)
    requires mark <= |list|
    ensures longer == list[..mark] + [service] + list[mark..]
  {
    var cnt := |list|;
    var tmpArray := new string[cnt + 1](_ => "");
    var ent := 0;
    while ent < mark
      invariant ent <= mark && forall i | 0 <= i < ent :: tmpArray[i] == list[i]
    {
      tmpArray[ent] := list[ent];
      ent := ent + 1;
    }
    tmpArray[ent] := service;
    while ent < cnt
      invariant mark <= ent <= cnt && tmpArray[mark] == service
      invariant forall i | 0 <= i < mark :: tmpArray[i] == list[i]
      invariant forall i | mark <= i < ent :: tmpArray[i + 1] == list[i]
    {
      tmpArray[ent + 1] := list[ent];
      ent := ent + 1;
    }
    longer := tmpArray[..];
    assert longer[mark + 1..] == list[mark..] by {
      forall i | mark <= i < cnt
        ensures longer[i + 1] == list[i]
      {
      }
    }
    assert longer == longer[..mark] + [longer[mark]] + longer[mark + 1..];
    assert longer[..mark] == list[..mark];
  }

  lemma CleanEdits(list: seq<string>, k: nat, service: string)
    requires Clean(list) && k <= |list| && service != [] && NUL !in service
    ensures Clean(list[..k] + [service] + list[k..])
    ensures k < |list| ==> Clean(list[..k] + list[k + 1..])
  {
  }

  lemma SliceAt(list: seq<string>, start: nat, k: nat)
    requires start <= k < |list|
    ensures list[..start] + list[start..][..k - start] == list[..k]
    ensures list[start..][k - start] == list[k] && list[start..][k - start + 1..] == list[k + 1..]
  {
  }

  lemma RemovedAt(list: seq<string>, at: nat)
    requires at < |list|
    ensures (list[..at] + list[at + 1..])[..at] == list[..at]
    ensures (list[..at] + list[at + 1..])[at..] == list[at + 1..]
  {
  }

  /** Where a search that starts behind the cursor stops. */
  lemma FindRepresents(op: Operator, service: string, list: seq<string>, start: nat,
                       services: set<string>, c: Cursor, k: nat) returns (next: Cursor)
    requires start <= |list| && Passed(c) == list[..start] && Ahead(c) == list[start..]
    requires (op == Find || op == Delete) && k == start + FirstMatch(list[start..], service)
    ensures Operate(c, op, service, services) == if k < |list| then Some(next) else None
    ensures k < |list| ==>
              if op == Find then Represents(next, list, k, 1)
              else Represents(next, list[..k] + list[k + 1..], k, 0)
  {
    next := c;
    if k < |list| {
      SliceAt(list, start, k);
      RemovedAt(list, k);
      next := At(list[..k], if op == Find then Some(list[k]) else None, list[k + 1..]);
    }
  }

  /** Where an addition puts the cursor. */
  lemma AddRepresents(op: Operator, service: string, list: seq<string>, after: int, span: int,
                      services: set<string>, c: Cursor, mark: nat) returns (next: Cursor)
    requires Represents(c, list, after, span) && (op == AddAfter || op == AddBefore) && service in services
    requires mark <= |list|
    requires mark == if op == AddAfter then if after < 0 then |list| else after + span
                     else if after < 0 then 0 else after
    ensures Operate(c, op, service, services) == Some(next)
    ensures Represents(next, list[..mark] + [service] + list[mark..], mark, 1)
  {
    next := At(list[..mark], Some(service), list[mark..]);
    InsertedAt(list, mark, service);
    if after < 0 {
      assert list[..|list|] == list && list[|list|..] == [] && list[..0] == [] && list[0..] == list;
    } else {
      assert list[..after + span] == list[..after] + OnList(c.on);
      assert list[after..] == OnList(c.on) + list[after + span..];
    }
  }

  lemma InsertedAt(list: seq<string>, at: nat, service: string)
    requires at <= |list|
    ensures
      var longer := list[..at] + [service] + list[at..];
      longer[..at] == list[..at] && longer[at] == service && longer[at + 1..] == list[at..]
  {
  }

  /** The search for the next service of a name. */
  method Locate(op: Operator, service: string, list: seq<string>, after: int, span: int, services: set<string>,
                ghost c: Cursor) returns (k: nat, ghost next: Cursor)
    requires Represents(c, list, after, span) && (op == Find || op == Delete)
    ensures k <= |list| && Operate(c, op, service, services) == if k < |list| then Some(next) else None
    ensures k < |list| ==>
              if op == Find then Represents(next, list, k, 1)
              else Represents(next, list[..k] + list[k + 1..], k, 0)
  {
    RepresentedList(c, list, after, span);
    k := Search(list, after + span, service);
    next := FindRepresents(op, service, list, after + span, services, c, k);
  }

  /** '@' and '!': the next service of that name. */
  method FindService(op: Operator, service: string, list: seq<string>, after: int, span: int, services: set<string>,
                     ghost c: Cursor)
    returns (found: bool, list': seq<string>, after': int, span': int, multiSz: array<char>, ghost next: Cursor)
    requires Represents(c, list, after, span) && Clean(list)
    requires op == Find || op == Delete
    ensures Operate(c, op, service, services) == if found then Some(next) else None
    ensures found ==> Clean(list') && Represents(next, list', after', span')
    ensures found && op == Delete ==> multiSz[..] == Serialise(list')
    ensures found && op == Find ==> list' == list
  {
    var k;
    k, next := Locate(op, service, list, after, span, services, c);
    list', after' := list, k;
    multiSz := new char[0];
    if k == |list| {
      return false, list, after, span, multiSz, c;
    }
    found := true;
    if op == Find {
      span' := 1;
    } else {
      span' := 0;
      list', multiSz := Remove(list, k);
    }
  }

  /** The list without one service, and its buffer. */
  method Remove(list: seq<string>, after: nat) returns (rest: seq<string>, multiSz: array<char>)
    requires Clean(list) && after < |list|
    ensures rest == list[..after] + list[after + 1..] && Clean(rest)
    ensures multiSz[..] == Serialise(rest)
  {
    rest := RemoveAt(list, after);
    CleanEdits(list, after, list[after]);
    multiSz := CopyList(rest);
  }

  /** The list with one service more, and its buffer. */
  method Insert(list: seq<string>, mark: nat, service: string) returns (longer: seq<string>, multiSz: array<char>)
    requires Clean(list) && mark <= |list| && service != [] && NUL !in service
    ensures longer == list[..mark] + [service] + list[mark..] && Clean(longer)
    ensures multiSz[..] == Serialise(longer)
  {
    longer := InsertAt(list, mark, service);
    CleanEdits(list, mark, service);
    multiSz := CopyList(longer);
  }

  /** '+' and '-': a service that exists, behind the cursor or before it. */
  method AddService(op: Operator, service: string, list: seq<string>, after: int, span: int, services: set<string>,
                    ghost c: Cursor)
    returns (added: bool, list': seq<string>, after': int, multiSz: array<char>, ghost next: Cursor)
    requires Represents(c, list, after, span) && Clean(list) && service != [] && NUL !in service
    requires op == AddAfter || op == AddBefore
    ensures Operate(c, op, service, services) == if added then Some(next) else None
    ensures added ==> Clean(list') && Represents(next, list', after', 1)
    ensures added ==> multiSz[..] == Serialise(list')
  {
    var mark;
    if op == AddAfter {
      mark := if after < 0 then |list| else after + span;
    } else {
      mark := if after < 0 then 0 else after;
    }
    if service !in services {
      multiSz := new char[0];
      return false, list, after, multiSz, c;
    }
    added := true;
    list', multiSz := Insert(list, mark, service);
    next := AddRepresents(op, service, list, after, span, services, c, mark);
    after' := mark;
  }

  /** What one command did: it failed, or it left this list and this position. */
  ghost predicate Done(r: Result, failed: Option<int>, list: seq<string>, list': seq<string>, after': int, span': int,
                       changed: bool, multiSz: seq<char>)
  {
    match failed
    case Some(code) => r == Failed(code)
    case None =>
      && r.Finished? && r.modified == changed && !r.usage
      && Represents(r.cursor, list', after', span') && Clean(list')
      && if changed then multiSz == Serialise(list') else list' == list
  }

  lemma RewoundOperator(c: Cursor, op: char, service: string, services: set<string>)
    ensures Apply(c, ParseOperator(true, op, service), services) ==
            Apply(InFront(List(c)), ParseOperator(false, op, service), services)
  {
  }

  /** An operator with its service. */
  method ExecuteOperator(op: char, service: string, list: seq<string>, after: int, span: int, services: set<string>,
                         ghost c: Cursor)
    returns (failed: Option<int>, list': seq<string>, after': int, span': int, changed: bool, multiSz: array<char>)
    requires Represents(c, list, after, span) && Clean(list) && NUL !in service
    ensures Done(Apply(c, ParseOperator(false, op, service), services),
                 failed, list, list', after', span', changed, multiSz[..])
  {
    failed, list', after', span', changed := None, list, after, span, false;
    ghost var next: Cursor;
    if service == [] {
      multiSz := new char[0];
      failed := Some(EXIT_USAGE);
    } else if op == '@' || op == '!' {
      var found;
      found, list', after', span', multiSz, next :=
        FindService(if op == '@' then Find else Delete, service, list, after, span, services, c);
      failed := if found then None else Some(EXIT_FAIL);
      changed := op == '!';
    } else if op == '+' || op == '-' {
      var added;
      added, list', after', multiSz, next :=
        AddService(if op == '+' then AddAfter else AddBefore, service, list, after, span, services, c);
      failed := if added then None else Some(EXIT_FAIL);
      span', changed := 1, true;
    } else {
      multiSz := new char[0];
      failed := Some(EXIT_USAGE);
    }
  }

  /** One argument. */
  method Execute(arg: string, list: seq<string>, after: int, span: int, services: set<string>, ghost c: Cursor)
    returns (failed: Option<int>, list': seq<string>, after': int, span': int, changed: bool, multiSz: array<char>)
    requires Represents(c, list, after, span) && Clean(list) && NUL !in arg
    ensures Done(Apply(c, ParseCommand(arg), services), failed, list, list', after', span', changed, multiSz[..])
  {
    if arg != [] && arg[0] == '=' {
      RepresentedList(c, list, after, span);
      if |arg| == 1 {
        multiSz := new char[0];
        return None, list, -1, 1, false, multiSz;
      }
      RewoundOperator(c, arg[1], arg[2..], services);
      failed, list', after', span', changed, multiSz :=
        ExecuteOperator(arg[1], arg[2..], list, -1, 1, services, InFront(list));
    } else if arg != [] {
      failed, list', after', span', changed, multiSz :=
        ExecuteOperator(arg[0], arg[1..], list, after, span, services, c);
    } else {
      multiSz := new char[0];
      return Some(EXIT_USAGE), list, after, span, false, multiSz;
    }
  }

  /** The loop over the arguments. */
  method Edit(initial: seq<string>, args: seq<Option<string>>, services: set<string>)
    returns (failed: Option<int>, list: seq<string>, modified: bool, usage: bool, multiSz: array<char>)
    requires Clean(initial)
    requires forall i | 0 <= i < |args| && args[i].Some? :: NUL !in args[i].value
    ensures
      match Script(InFront(initial), false, args, services)
      case Failed(code) => failed == Some(code)
      case Finished(c, m, u) =>
        failed == None && list == List(c) && modified == m && usage == u && Clean(list)
        && (modified ==> multiSz[..] == Serialise(list))
  {
    ghost var result := Script(InFront(initial), false, args, services);
    var after, span, argIndex := -1, 1, 0;
    failed, list, modified, usage := None, initial, false, false;
    multiSz := new char[0];
    ghost var c := InFront(initial);
    assert args[0..] == args;
    while argIndex < |args|
      invariant argIndex <= |args| && failed == None && !usage
      invariant Clean(list) && Represents(c, list, after, span)
      invariant result == Script(c, modified, args[argIndex..], services)
      invariant modified ==> multiSz[..] == Serialise(list)
    {
      assert args[argIndex..][1..] == args[argIndex + 1..];
      match args[argIndex]
      case None =>
        RepresentedList(c, list, after, span);
        usage := true;
        return;
      case Some(arg) =>
        var changed, buffer;
        ghost var r := Apply(c, ParseCommand(arg), services);
        failed, list, after, span, changed, buffer := Execute(arg, list, after, span, services, c);
        if failed.Some? {
          return;
        }
        c := r.cursor;
        if changed {
          modified, multiSz := true, buffer;
        }
        argIndex := argIndex + 1;
    }
    assert args[argIndex..] == [];
    RepresentedList(c, list, after, span);
  }

  /** A filter value of a class, as the registry stores it. */
  class FilterValue {
    var stored: Option<seq<char>>
  }

  /** The command. The value is written only if every sub-command before the end
      or a missing argument succeeded, and holds the list of the script then. */
  method ClassFilter(value: FilterValue, multiVal: Option<seq<string>>, args: seq<Option<string>>,
                     services: set<string>, canSet: bool, canDelete: bool) returns (failcode: int)
    requires multiVal.Some? ==> Clean(multiVal.value)
    requires forall i | 0 <= i < |args| && args[i].Some? :: NUL !in args[i].value
    modifies value
    ensures
      match Script(InFront(if multiVal.Some? then multiVal.value else []), false, args, services)
      case Failed(code) => failcode == code && value.stored == old(value.stored)
      case Finished(c, modified, usage) =>
        var written := modified && if List(c) != [] then canSet && Fits(List(c)) else canDelete;
        && value.stored == (if written then Stored(List(c)) else old(value.stored))
        && failcode == if !modified then 0 else if written then 1 else if usage then 3 else 2
  {
    var initial := match multiVal case Some(l) => l case None => [];
    var failed, list, modified, usage, multiSz := Edit(initial, args, services);
    if failed.Some? {
      return failed.value;
    }
    failcode := if usage then EXIT_USAGE else EXIT_FAIL;
    if modified {
      if list != [] {
        SafeSerialised(list);
        RoundTrip(list);
        var len := CommittedLength(multiSz);
        JoinedLength(list);
        if CHARACTER_SIZE * len > DWORD_MAX {
          return;
        }
        if canSet {
          assert multiSz[..len] == multiSz[..];
          value.stored := Some(multiSz[..len]);
          failcode := EXIT_REBOOT;
        }
      } else if canDelete {
        value.stored := None;
        failcode := EXIT_REBOOT;
      }
    } else {
      failcode := EXIT_OK;
    }
  }
}
