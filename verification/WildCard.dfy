/** The identifier patterns of devcon and the greedy matcher behind them. */
module WildCard {
  import opened CaseFold

  const INSTANCEID_PREFIX_CHAR := '@'
  const QUOTE_PREFIX_CHAR := '\''
  const WILD_CHAR := '*'

  /** An identifier to look for: the text after its prefixes, and the place of
      the first wild character of that text when it is to be read as a pattern. */
  datatype IdEntry = IdEntry(instanceId: bool, text: string, wild: Option<nat>)

  ghost predicate ValidEntry(e: IdEntry) {
    e.wild.Some? ==>
      e.wild.value < |e.text| && e.text[e.wild.value] == WILD_CHAR && WILD_CHAR !in e.text[..e.wild.value]
  }

  // ---------------------------------------------------------------------
  // What a pattern means

  /** The glob relation: a wild character stands for any string, every other
      character of the pattern for itself in either case. */
  ghost predicate Glob(pattern: string, s: string) {
    if pattern == [] then s == []
    else if pattern[0] == WILD_CHAR then exists k | 0 <= k <= |s| :: Glob(pattern[1..], s[k..])
    else s != [] && ToLower(pattern[0]) == ToLower(s[0]) && Glob(pattern[1..], s[1..])
  }

  /** What remains to be matched once a wild character has been read. */
  ghost predicate GlobTail(pattern: string, s: string) {
    exists k | 0 <= k <= |s| :: Glob(pattern, s[k..])
  }

  /** What an entry selects. */
  ghost predicate Selects(e: IdEntry, item: string) {
    if e.wild.None? then SameText(item, e.text) else Glob(e.text, item)
  }

  lemma GlobTailIntro(pattern: string, s: string, k: nat)
    requires k <= |s| && Glob(pattern, s[k..])
    ensures GlobTail(pattern, s)
  {
  }

  lemma GlobTailOfSuffix(pattern: string, s: string, j: nat)
    requires j <= |s| && GlobTail(pattern, s[j..])
    ensures GlobTail(pattern, s)
  {
    var k :| 0 <= k <= |s[j..]| && Glob(pattern, s[j..][k..]);
    DropTwice(s, j, k);
    GlobTailIntro(pattern, s, j + k);
  }

  lemma DropTwice(s: string, j: nat, k: nat)
    requires j + k <= |s|
    ensures s[j..][k..] == s[j + k..]
  {
  }

  /** Two wild characters in a row are worth one. */
  lemma SkipWild(pattern: string, s: string)
    requires pattern != [] && pattern[0] == WILD_CHAR
    ensures GlobTail(pattern, s) <==> GlobTail(pattern[1..], s)
  {
    if GlobTail(pattern, s) {
      var k :| 0 <= k <= |s| && Glob(pattern, s[k..]);
      assert GlobTail(pattern[1..], s[k..]);
      GlobTailOfSuffix(pattern[1..], s, k);
    }
    if GlobTail(pattern[1..], s) {
      assert s[0..] == s;
      GlobTailIntro(pattern, s, 0);
    }
  }

  /** A run of ordinary characters matches exactly itself, up to case. */
  lemma {:induction false} GlobLiteral(q: string, rest: string, s: string)
    requires WILD_CHAR !in q
    ensures Glob(q + rest, s) <==> SamePrefix(s, q, |q|) && Glob(rest, s[|q|..])
  {
    if q == [] {
      assert q + rest == rest && s[0..] == s;
    } else {
      var p := q + rest;
      assert p[0] == q[0] && p[1..] == q[1..] + rest;
      SamePrefixCons(s, q);
      if s != [] {
        GlobLiteral(q[1..], rest, s[1..]);
        if |q| <= |s| {
          assert s[1..][|q[1..]|..] == s[|q|..];
        }
      }
    }
  }

  lemma SamePrefixCons(s: string, q: string)
    requires q != []
    ensures SamePrefix(s, q, |q|) <==>
            s != [] && ToLower(q[0]) == ToLower(s[0]) && SamePrefix(s[1..], q[1..], |q| - 1)
  {
    if |q| <= |s| {
      assert s[..|q|] == [s[0]] + s[1..][..|q| - 1];
      assert q[..|q|] == [q[0]] + q[1..][..|q| - 1];
      SameTextCons(s[0], s[1..][..|q| - 1], q[0], q[1..][..|q| - 1]);
    }
  }

  lemma SameTextCons(a: char, s: string, b: char, t: string)
    ensures SameText([a] + s, [b] + t) <==> ToLower(a) == ToLower(b) && SameText(s, t)
  {
    if SameText([a] + s, [b] + t) {
      assert ToLower(([a] + s)[0]) == ToLower(([b] + t)[0]);
      forall i | 0 <= i < |s|
        ensures ToLower(s[i]) == ToLower(t[i])
      {
        assert ToLower(([a] + s)[i + 1]) == ToLower(([b] + t)[i + 1]);
      }
    }
  }

  /** Where the ordinary run q does not match, the search moves on by one. */
  lemma NoMatchHere(q: string, rest: string, s: string)
    requires q != [] && WILD_CHAR !in q
    requires !SamePrefix(s, q, |q|)
    ensures GlobTail(q + rest, s) <==> s != [] && GlobTail(q + rest, s[1..])
  {
    var p := q + rest;
    if GlobTail(p, s) {
      var k :| 0 <= k <= |s| && Glob(p, s[k..]);
      GlobLiteral(q, rest, s);
      assert s[0..] == s;
      assert k != 0;
      assert s[k..] == s[1..][k - 1..];
      GlobTailIntro(p, s[1..], k - 1);
    }
    if s != [] && GlobTail(p, s[1..]) {
      GlobTailOfSuffix(p, s, 1);
    }
  }

  /** The exchange argument: when a run that is followed by a wild character
      matches here, any later match can be traded for this one. */
  lemma LeftmostIsEnough(q: string, rest: string, s: string)
    requires WILD_CHAR !in q && rest != [] && rest[0] == WILD_CHAR
    requires SamePrefix(s, q, |q|)
    ensures GlobTail(q + rest, s) <==> GlobTail(rest, s[|q|..])
  {
    if GlobTail(q + rest, s) {
      var k :| 0 <= k <= |s| && Glob(q + rest, s[k..]);
      GlobLiteral(q, rest, s[k..]);
      assert s[k..][|q|..] == s[|q|..][k..];
      GlobTailIntro(rest, s[|q|..], k);
    }
    if GlobTail(rest, s[|q|..]) {
      SkipWild(rest, s[|q|..]);
      assert Glob(rest, s[|q|..]);
      GlobLiteral(q, rest, s);
      assert s[0..] == s;
      GlobTailIntro(q + rest, s, 0);
    }
  }

  /** After a wild character, a last ordinary run has to be the end of the item. */
  lemma LastRun(q: string, s: string)
    requires WILD_CHAR !in q
    ensures GlobTail(q, s) <==> |q| <= |s| && SameText(s[|s| - |q|..], q)
  {
    assert q + [] == q;
    if GlobTail(q, s) {
      var k :| 0 <= k <= |s| && Glob(q, s[k..]);
      GlobLiteral(q, [], s[k..]);
      assert k == |s| - |q|;
      assert s[k..][..|q|] == s[k..] && q[..|q|] == q;
    }
    if |q| <= |s| && SameText(s[|s| - |q|..], q) {
      var k := |s| - |q|;
      assert s[k..][..|q|] == s[k..] && q[..|q|] == q;
      GlobLiteral(q, [], s[k..]);
      GlobTailIntro(q, s, k);
    }
  }

  /** A pattern without wild characters is an ordinary comparison. */
  lemma GlobWithoutWild(q: string, s: string)
    requires WILD_CHAR !in q
    ensures Glob(q, s) <==> SameText(s, q)
  {
    assert q + [] == q;
    GlobLiteral(q, [], s);
    if |q| == |s| {
      assert s[..|q|] == s && q[..|q|] == q;
    }
  }

  // ---------------------------------------------------------------------
  // The operations

  /** The first place of c in s, as `_tcschr` finds it. */
  function IndexOf(s: string, c: char): (r: Option<nat>)
    ensures r.None? <==> c !in s
    ensures r.Some? ==> r.value < |s| && s[r.value] == c && c !in s[..r.value]
  {
    if s == [] then None
    else if s[0] == c then Some(0)
    else
      match IndexOf(s[1..], c)
      case None => None
      case Some(k) =>
        assert s[..k + 1] == [s[0]] + s[1..][..k];
        Some(k + 1)
  }

  function GetIdType(id: string): (e: IdEntry)
    ensures ValidEntry(e)
  {
    var instanceId := id != [] && id[0] == INSTANCEID_PREFIX_CHAR;
    var text := if instanceId then id[1..] else id;
    if text != [] && text[0] == QUOTE_PREFIX_CHAR then IdEntry(instanceId, text[1..], None)
    else IdEntry(instanceId, text, IndexOf(text, WILD_CHAR))
  }

  /** A command-line identifier is a glob unless it is quoted, and the '@' that
      marks an instance id is no part of what is compared. */
  lemma IdentifierMeaning(id: string, item: string)
    ensures
      var body := if id != [] && id[0] == '@' then id[1..] else id;
      && (GetIdType(id).instanceId <==> id != [] && id[0] == '@')
      && (Selects(GetIdType(id), item) <==>
          if body != [] && body[0] == '\'' then SameText(item, body[1..]) else Glob(body, item))
  {
    var body := if id != [] && id[0] == '@' then id[1..] else id;
    if WILD_CHAR !in body {
      GlobWithoutWild(body, item);
    }
  }

  /** What the loop still has to find: the pattern from w on, anywhere in the
      item from i on. */
  ghost predicate Remaining(pattern: string, w: nat, item: string, i: nat)
    requires w <= |pattern| && i <= |item|
  {
    GlobTail(pattern[w..], item[i..])
  }

  lemma RemainingAtStart(pattern: string, w: nat, item: string)
    requires w < |pattern| && pattern[w] == WILD_CHAR && WILD_CHAR !in pattern[..w]
    ensures Glob(pattern, item) <==> SamePrefix(item, pattern, w) && Remaining(pattern, w, item, w)
  {
    var prefix, rest := pattern[..w], pattern[w..];
    assert pattern == prefix + rest;
    GlobLiteral(prefix, rest, item);
    assert prefix[..w] == pattern[..w];
    if w <= |item| {
      SkipWild(rest, item[w..]);
    }
  }

  lemma RemainingAtEnd(pattern: string, item: string, i: nat)
    requires i <= |item|
    ensures Remaining(pattern, |pattern|, item, i)
  {
    assert pattern[|pattern|..] == [] && item[i..][|item| - i..] == [];
    GlobTailIntro([], item[i..], |item| - i);
  }

  lemma RemainingSkip(pattern: string, w: nat, item: string, i: nat)
    requires w < |pattern| && i <= |item| && pattern[w] == WILD_CHAR
    ensures Remaining(pattern, w, item, i) <==> Remaining(pattern, w + 1, item, i)
  {
    SkipWild(pattern[w..], item[i..]);
    assert pattern[w..][1..] == pattern[w + 1..];
  }

  lemma RemainingLast(pattern: string, w: nat, item: string, i: nat)
    requires w <= |pattern| && i <= |item| && WILD_CHAR !in pattern[w..]
    ensures Remaining(pattern, w, item, i) <==>
            |pattern| - w <= |item| - i && SameText(item[|item| - (|pattern| - w)..], pattern[w..])
  {
    LastRun(pattern[w..], item[i..]);
    if |pattern| - w <= |item| - i {
      assert item[i..][|item| - i - (|pattern| - w)..] == item[|item| - (|pattern| - w)..];
    }
  }

  /** The run of n ordinary characters at w, followed by a wild character. */
  ghost predicate RunAt(pattern: string, w: nat, n: nat) {
    && 0 < n && w + n < |pattern|
    && pattern[w + n] == WILD_CHAR
    && WILD_CHAR !in pattern[w..w + n]
  }

  lemma RemainingMove(pattern: string, w: nat, n: nat, item: string, i: nat)
    requires RunAt(pattern, w, n) && i <= |item|
    requires !SamePrefix(item[i..], pattern[w..], n)
    ensures Remaining(pattern, w, item, i) <==> i < |item| && Remaining(pattern, w, item, i + 1)
  {
    var q, r := pattern[w..w + n], pattern[w + n..];
    assert pattern[w..] == q + r;
    assert q[..n] == pattern[w..][..n];
    NoMatchHere(q, r, item[i..]);
    if i < |item| {
      assert item[i..][1..] == item[i + 1..];
    }
  }

  lemma RemainingTake(pattern: string, w: nat, n: nat, item: string, i: nat)
    requires RunAt(pattern, w, n) && i <= |item|
    requires SamePrefix(item[i..], pattern[w..], n)
    ensures i + n <= |item|
    ensures Remaining(pattern, w, item, i) <==> Remaining(pattern, w + n, item, i + n)
  {
    var q, r := pattern[w..w + n], pattern[w + n..];
    assert pattern[w..] == q + r;
    assert q[..n] == pattern[w..][..n];
    LeftmostIsEnough(q, r, item[i..]);
    assert item[i..][n..] == item[i + n..];
  }

  lemma RunFound(pattern: string, w: nat, n: nat)
    requires w < |pattern| && pattern[w] != WILD_CHAR
    requires IndexOf(pattern[w..], WILD_CHAR) == Some(n)
    ensures RunAt(pattern, w, n)
  {
    assert pattern[w..][0] == pattern[w];
    assert pattern[w..w + n] == pattern[w..][..n];
  }

  /** The greedy search decides the glob relation. */
  method WildCardMatch(item: string, entry: IdEntry) returns (found: bool)
    requires ValidEntry(entry)
    ensures found <==> Selects(entry, item)
  {
    var pattern := entry.text;
    if entry.wild.None? {
      return SameText(item, pattern);
    }
    var wildMark: nat := entry.wild.value;
    RemainingAtStart(pattern, wildMark, item);
    if !SamePrefix(item, pattern, wildMark) {
      return false;
    }
    var scanItem: nat := wildMark;
    var verdict := None;
    ghost var goal := Glob(pattern, item);
    while verdict.None? && wildMark < |pattern|
      invariant wildMark <= |pattern| && scanItem <= |item|
      invariant goal == if verdict.Some? then verdict.value else Remaining(pattern, wildMark, item, scanItem)
      decreases verdict.None?, |pattern| - wildMark + |item| - scanItem
    {
      verdict, wildMark, scanItem := Advance(item, scanItem, pattern, wildMark);
    }
    if verdict.Some? {
      return verdict.value;
    }
    RemainingAtEnd(pattern, item, scanItem);
    return true;
  }

  /** One round of the search: skip a wild character, decide the last run, or
      match a run here or further on. */
  method Advance(item: string, start: nat, pattern: string, w: nat)
    returns (verdict: Option<bool>, wildMark: nat, scanItem: nat)
    requires w < |pattern| && start <= |item|
    ensures verdict.Some? ==> verdict.value == Remaining(pattern, w, item, start)
    ensures wildMark <= |pattern| && scanItem <= |item|
    ensures verdict.None? ==> Remaining(pattern, wildMark, item, scanItem) == Remaining(pattern, w, item, start)
    ensures verdict.None? ==> wildMark + scanItem > w + start
  {
    if pattern[w] == WILD_CHAR {
      RemainingSkip(pattern, w, item, start);
      return None, w + 1, start;
    }
    var nextWild := IndexOf(pattern[w..], WILD_CHAR);
    if nextWild.None? {
      RemainingLast(pattern, w, item, start);
      var matchlen := |pattern| - w;
      if |item| - start < matchlen {
        return Some(false), w, start;
      }
      return Some(SameText(item[|item| - matchlen..], pattern[w..])), w, start;
    }
    var matchlen := nextWild.value;
    RunFound(pattern, w, matchlen);
    scanItem := FirstCharacter(item, start, pattern, w, matchlen);
    if scanItem == |item| {
      RemainingMove(pattern, w, matchlen, item, scanItem);
      return Some(false), w, scanItem;
    }
    if !SamePrefix(item[scanItem..], pattern[w..], matchlen) {
      RemainingMove(pattern, w, matchlen, item, scanItem);
      return None, w, scanItem + 1;
    }
    RemainingTake(pattern, w, matchlen, item, scanItem);
    return None, w + matchlen, scanItem + matchlen;
  }

  /** The scan for the first character of the run at w, in either case when it
      is a letter. Nothing that is passed over could have started a match. */
  method FirstCharacter(item: string, start: nat, pattern: string, w: nat, ghost n: nat) returns (scanItem: nat)
    requires start <= |item| && RunAt(pattern, w, n)
    ensures start <= scanItem <= |item|
    ensures forall i | start <= i < scanItem :: ToLower(item[i]) != ToLower(pattern[w])
    ensures scanItem < |item| ==> ToLower(item[scanItem]) == ToLower(pattern[w])
    ensures Remaining(pattern, w, item, start) <==> Remaining(pattern, w, item, scanItem)
  {
    scanItem := start;
    var first := pattern[w];
    var u, l := ToUpper(first), ToLower(first);
    while scanItem < |item| &&
          (if IsAlpha(first) then item[scanItem] != u && item[scanItem] != l else item[scanItem] != first)
      invariant start <= scanItem <= |item|
      invariant forall i | start <= i < scanItem :: ToLower(item[i]) != ToLower(first)
      invariant Remaining(pattern, w, item, start) <==> Remaining(pattern, w, item, scanItem)
    {
      EitherCase(first, item[scanItem]);
      OtherFirst(pattern[w..], n, item[scanItem..]);
      RemainingMove(pattern, w, n, item, scanItem);
      scanItem := scanItem + 1;
    }
    if scanItem < |item| {
      EitherCase(first, item[scanItem]);
    }
  }

  lemma OtherFirst(q: string, n: nat, s: string)
    requires 0 < n <= |q| && s != [] && ToLower(q[0]) != ToLower(s[0])
    ensures !SamePrefix(s, q, n)
  {
    if n <= |s| {
      assert s[..n][0] == s[0] && q[..n][0] == q[0];
    }
  }

  /** Whether any string of the list is selected. */
  method WildCompareHwIds(ids: seq<string>, entry: IdEntry) returns (found: bool)
    requires ValidEntry(entry)
    ensures found <==> exists i | 0 <= i < |ids| :: Selects(entry, ids[i])
  {
    var i := 0;
    while i < |ids|
      invariant i <= |ids|
      invariant forall j | 0 <= j < i :: !Selects(entry, ids[j])
    {
      var matches := WildCardMatch(ids[i], entry);
      if matches {
        return true;
      }
      i := i + 1;
    }
    return false;
  }

  // ---------------------------------------------------------------------
  // What identifiers select

  lemma {:induction false} GlobRecased(pattern: string, pattern': string, s: string, s': string)
    requires Recased(pattern, pattern') && Recased(s, s') && Glob(pattern, s)
    ensures Glob(pattern', s')
    decreases |pattern|
  {
    if pattern != [] {
      RecasedFrom(pattern, pattern', 1);
      RecasedFirst(pattern, pattern');
      if pattern[0] == WILD_CHAR {
        var k :| 0 <= k <= |s| && Glob(pattern[1..], s[k..]);
        RecasedFrom(s, s', k);
        GlobRecased(pattern[1..], pattern'[1..], s[k..], s'[k..]);
      } else {
        RecasedFrom(s, s', 1);
        RecasedFirst(s, s');
        GlobRecased(pattern[1..], pattern'[1..], s[1..], s'[1..]);
      }
    }
  }

  lemma RecasedFirst(s: string, t: string)
    requires Recased(s, t) && s != []
    ensures ToLower(s[0]) == ToLower(t[0]) && (s[0] == WILD_CHAR <==> t[0] == WILD_CHAR)
  {
    assert SameLetter(s[0], t[0]);
    FoldExact(s[0], t[0]);
  }

  lemma RecasedFrom(s: string, t: string, k: nat)
    requires Recased(s, t) && k <= |s|
    ensures Recased(s[k..], t[k..])
  {
  }

  lemma RecasedBack(s: string, t: string)
    requires Recased(s, t)
    ensures Recased(t, s)
  {
  }

  lemma RecasedThrice(s: string, t: string, u: string, v: string)
    requires Recased(s, t) && Recased(t, u) && Recased(u, v)
    ensures Recased(s, v)
  {
    forall i | 0 <= i < |s|
      ensures SameLetter(s[i], v[i])
    {
      assert SameLetter(s[i], t[i]) && SameLetter(t[i], u[i]) && SameLetter(u[i], v[i]);
    }
  }

  lemma SelectsRecased(id: string, id': string, item: string, item': string)
    requires Recased(id, id') && Recased(item, item') && Selects(GetIdType(id), item)
    ensures Selects(GetIdType(id'), item')
  {
    IdentifierMeaning(id, item);
    IdentifierMeaning(id', item');
    assert id != [] ==> SameLetter(id[0], id'[0]);
    var body := if id != [] && id[0] == '@' then id[1..] else id;
    var body' := if id' != [] && id'[0] == '@' then id'[1..] else id';
    if id != [] {
      RecasedFrom(id, id', 1);
    }
    assert body != [] ==> SameLetter(body[0], body'[0]);
    if body != [] && body[0] == '\'' {
      RecasedFrom(body, body', 1);
      SameTextExact(item, body[1..]);
      SameTextExact(item', body'[1..]);
      RecasedBack(item, item');
      RecasedThrice(item', item, body[1..], body'[1..]);
    } else {
      GlobRecased(body, body', item, item');
    }
  }

  /** Putting letters of the identifier or of the item into the other case makes
      no difference to what is selected. */
  lemma CaseIgnored(id: string, id': string, item: string, item': string)
    requires Recased(id, id') && Recased(item, item')
    ensures Selects(GetIdType(id), item) <==> Selects(GetIdType(id'), item')
  {
    if Selects(GetIdType(id), item) {
      SelectsRecased(id, id', item, item');
    }
    if Selects(GetIdType(id'), item') {
      RecasedBack(id, id');
      RecasedBack(item, item');
      SelectsRecased(id', id, item', item);
    }
  }

  /** The text is found in the item at k, in any case. */
  predicate Occurs(q: string, item: string, k: nat) {
    k + |q| <= |item| && Recased(item[k..k + |q|], q)
  }

  /** Text without a star, a prefix or a quote selects itself, in any case. */
  lemma StarNowhere(q: string, item: string)
    requires '*' !in q && (q != [] ==> q[0] != '@' && q[0] != '\'')
    ensures Selects(GetIdType(q), item) <==> Recased(item, q)
  {
    IdentifierMeaning(q, item);
    GlobWithoutWild(q, item);
    SameTextExact(item, q);
  }

  /** With a star behind it, it selects what begins with it. */
  lemma StarBehind(q: string, item: string)
    requires '*' !in q && (q != [] ==> q[0] != '@' && q[0] != '\'')
    ensures Selects(GetIdType(q + "*"), item) <==> |q| <= |item| && Recased(item[..|q|], q)
  {
    IdentifierMeaning(q + "*", item);
    GlobLiteral(q, "*", item);
    if |q| <= |item| {
      assert q[..|q|] == q;
      SameTextExact(item[..|q|], q);
      StarTakesAll(item[|q|..]);
    }
  }

  lemma StarTakesAll(s: string)
    ensures Glob("*", s)
  {
    assert "*"[1..] == [] && s[|s|..] == [];
    assert Glob("*"[1..], s[|s|..]);
  }

  /** With a star in front, what ends with it. */
  lemma StarInFront(q: string, item: string)
    requires '*' !in q
    ensures Selects(GetIdType("*" + q), item) <==> |q| <= |item| && Recased(item[|item| - |q|..], q)
  {
    IdentifierMeaning("*" + q, item);
    assert ("*" + q)[1..] == q;
    assert Glob("*" + q, item) <==> GlobTail(q, item);
    LastRun(q, item);
    if |q| <= |item| {
      SameTextExact(item[|item| - |q|..], q);
    }
  }

  /** With stars around it, what contains it. */
  lemma StarAround(q: string, item: string)
    requires '*' !in q
    ensures Selects(GetIdType("*" + q + "*"), item) <==> exists k: nat :: Occurs(q, item, k)
  {
    IdentifierMeaning("*" + q + "*", item);
    assert ("*" + q + "*")[1..] == q + "*";
    if Glob("*" + q + "*", item) {
      var k :| 0 <= k <= |item| && Glob(("*" + q + "*")[1..], item[k..]);
      OccursAt(q, item, k);
    }
    if k: nat :| Occurs(q, item, k) {
      OccursAt(q, item, k);
      assert Glob(("*" + q + "*")[1..], item[k..]);
    }
  }

  lemma OccursAt(q: string, item: string, k: nat)
    requires '*' !in q && k <= |item|
    ensures Glob(q + "*", item[k..]) <==> Occurs(q, item, k)
  {
    GlobLiteral(q, "*", item[k..]);
    if k + |q| <= |item| {
      assert q[..|q|] == q && item[k..][..|q|] == item[k..k + |q|];
      SameTextExact(item[k..k + |q|], q);
      StarTakesAll(item[k..][|q|..]);
    }
  }

  /** Behind a quote the whole text selects itself only, stars and all. */
  lemma QuotedSelects(text: string, item: string)
    ensures Selects(GetIdType("'" + text), item) <==> Recased(item, text)
  {
    IdentifierMeaning("'" + text, item);
    assert ("'" + text)[1..] == text;
    SameTextExact(item, text);
  }
}
