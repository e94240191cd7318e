/** devcon's multi-strings: NUL-terminated strings one after the other, with an
    empty one at the end, and the index arrays over them. */
module MultiSz {
  import opened CaseFold

  const NUL: char := '\0'
  const NULL := -1

  // ---------------------------------------------------------------------
  // What a buffer holds

  /** The string at the start of a buffer. */
  function CString(b: seq<char>): (s: string)
    ensures s <= b && NUL !in s
    ensures |s| < |b| ==> b[|s|] == NUL
  {
    if b == [] || b[0] == NUL then [] else [b[0]] + CString(b[1..])
  }

  /** What follows n characters and their NUL. */
  function Behind(b: seq<char>, n: nat): (rest: seq<char>)
    ensures n > 0 && b != [] ==> |rest| < |b|
  {
    if n < |b| then b[n + 1..] else []
  }

  /** The strings of a buffer up to the first empty one. */
  function Strings(b: seq<char>): seq<string>
    decreases |b|
  {
    var s := CString(b);
    if s == [] then [] else [s] + Strings(Behind(b, |s|))
  }

  /** A reader that looks for the empty string stays inside the buffer. */
  predicate Safe(b: seq<char>)
    decreases |b|
  {
    var s := CString(b);
    |s| < |b| && (s == [] || Safe(Behind(b, |s|)))
  }

  /** The strings as a multi-string writes them. */
  function Joined(list: seq<string>): seq<char> {
    if list == [] then [] else list[0] + [NUL] + Joined(list[1..])
  }

  function Serialise(list: seq<string>): seq<char> {
    Joined(list) + [NUL]
  }

  function TotalLength(list: seq<string>): nat {
    if list == [] then 0 else |list[0]| + 1 + TotalLength(list[1..])
  }

  /** Strings of the C runtime. */
  predicate NulFree(list: seq<string>) {
    forall i | 0 <= i < |list| :: NUL !in list[i]
  }

  predicate Clean(list: seq<string>) {
    forall i | 0 <= i < |list| :: list[i] != [] && NUL !in list[i]
  }

  function BeforeEmpty(list: seq<string>): seq<string> {
    if list == [] || list[0] == [] then [] else [list[0]] + BeforeEmpty(list[1..])
  }

  // ---------------------------------------------------------------------
  // Round trips

  lemma {:induction false} CStringOf(s: string, rest: seq<char>)
    requires NUL !in s
    ensures CString(s + [NUL] + rest) == s
  {
    var b := s + [NUL] + rest;
    if s != [] {
      assert b[1..] == s[1..] + [NUL] + rest;
      CStringOf(s[1..], rest);
      assert s == [s[0]] + s[1..];
    }
  }

  lemma {:induction false} StringsOfSerialised(list: seq<string>)
    requires NulFree(list)
    ensures Strings(Serialise(list)) == BeforeEmpty(list)
  {
    var b := Serialise(list);
    if list != [] {
      var s := list[0];
      assert b == s + [NUL] + Serialise(list[1..]);
      CStringOf(s, Serialise(list[1..]));
      StringsOfSerialised(list[1..]);
      assert b[|s| + 1..] == Serialise(list[1..]);
    }
  }

  lemma {:induction false} AllBeforeEmpty(list: seq<string>)
    ensures BeforeEmpty(list) == list <==> forall i | 0 <= i < |list| :: list[i] != []
  {
    if list != [] && list[0] != [] {
      AllBeforeEmpty(list[1..]);
      assert list == [list[0]] + list[1..];
      if BeforeEmpty(list) == list {
        assert BeforeEmpty(list)[1..] == list[1..];
        forall i | 0 <= i < |list|
          ensures list[i] != []
        {
          if i > 0 {
            assert list[1..][i - 1] == list[i];
          }
        }
      }
    }
  }

  /** What is written, character by character: each string and a NUL, and a NUL at
      the end. */
  lemma SerialisedText(s: string, list: seq<string>)
    ensures Serialise([]) == "\0"
    ensures Serialise([s] + list) == s + "\0" + Serialise(list)
  {
    assert ([s] + list)[1..] == list;
  }

  /** A list comes back exactly when none of its strings is empty. */
  lemma RoundTrip(list: seq<string>)
    requires NulFree(list)
    ensures Strings(Serialise(list)) == list <==> Clean(list)
  {
    StringsOfSerialised(list);
    AllBeforeEmpty(list);
  }

  lemma {:induction false} StringsClean(b: seq<char>)
    ensures Clean(Strings(b))
    decreases |b|
  {
    var s := CString(b);
    if s != [] {
      StringsClean(Behind(b, |s|));
    }
  }

  /** Whatever a buffer holds, its strings are written and read back as they are. */
  lemma ReadBack(b: seq<char>)
    ensures Strings(Serialise(Strings(b))) == Strings(b)
  {
    StringsClean(b);
    RoundTrip(Strings(b));
  }

  lemma {:induction false} JoinedLength(list: seq<string>)
    ensures |Joined(list)| == TotalLength(list)
  {
    if list != [] {
      JoinedLength(list[1..]);
    }
  }

  lemma {:induction false} JoinedSnoc(list: seq<string>, s: string)
    ensures Joined(list + [s]) == Joined(list) + s + [NUL]
  {
    if list == [] {
      assert [s][1..] == [];
    } else {
      assert (list + [s])[1..] == list[1..] + [s];
      JoinedSnoc(list[1..], s);
    }
  }

  lemma {:induction false} TotalSnoc(list: seq<string>, s: string)
    ensures TotalLength(list + [s]) == TotalLength(list) + |s| + 1
  {
    if list == [] {
      assert [s][1..] == [];
    } else {
      assert (list + [s])[1..] == list[1..] + [s];
      TotalSnoc(list[1..], s);
    }
  }

  /** Reading stays inside any contents that are followed by two NULs. */
  lemma {:induction false} SafeWithTwoNuls(contents: seq<char>)
    ensures Safe(contents + [NUL, NUL])
    decreases |contents|
  {
    var b := contents + [NUL, NUL];
    var s := CString(b);
    assert b[|contents|] == NUL;
    if s != [] && |s| < |contents| {
      SafeWithTwoNuls(contents[|s| + 1..]);
      assert b[|s| + 1..] == contents[|s| + 1..] + [NUL, NUL];
    } else if s != [] {
      assert b[|s| + 1..] == [NUL];
      assert Safe([NUL]);
    }
  }

  /** And inside every serialised list. */
  lemma {:induction false} SafeSerialised(list: seq<string>)
    requires NulFree(list)
    ensures Safe(Serialise(list))
  {
    var b := Serialise(list);
    if list != [] {
      var s := list[0];
      assert b == s + [NUL] + Serialise(list[1..]);
      CStringOf(s, Serialise(list[1..]));
      SafeSerialised(list[1..]);
      assert b[|s| + 1..] == Serialise(list[1..]);
    }
  }

  // ---------------------------------------------------------------------
  // The operations

  /** Slot 0 is the buffer itself, the last slot is null, and the slots between
      are where the strings of the buffer start. */
  ghost predicate IsIndex(slots: seq<int>, b: seq<char>) {
    && |slots| == |Strings(b)| + 2
    && slots[0] == 0 && slots[|slots| - 1] == NULL
    && forall k | 0 <= k < |Strings(b)| :: StartsAt(b, slots[k + 1], Strings(b)[k])
  }

  ghost predicate StartsAt(b: seq<char>, at: int, s: string) {
    0 <= at < |b| && CString(b[at..]) == s
  }

  /** What a caller finds with an index of a written list: the buffer, each string of
      the list, and null. */
  lemma IndexFinds(slots: seq<int>, list: seq<string>)
    requires Clean(list) && IsIndex(slots, Serialise(list))
    ensures |slots| == |list| + 2 && slots[0] == 0 && slots[|list| + 1] == -1
    ensures forall k | 0 <= k < |list| :: HasTextAt(Serialise(list), slots[k + 1], list[k])
  {
    RoundTrip(list);
    var b := Serialise(list);
    SafeSerialised(list);
    forall k | 0 <= k < |list|
      ensures HasTextAt(b, slots[k + 1], list[k])
    {
      assert StartsAt(b, slots[k + 1], Strings(b)[k]);
      EndsInNul(list, slots[k + 1]);
    }
  }

  predicate HasTextAt(b: seq<char>, at: int, s: string) {
    0 <= at < |b| && s + "\0" <= b[at..]
  }

  /** The last character is a NUL, so each string has one behind it. */
  lemma EndsInNul(list: seq<string>, at: nat)
    requires at < |Serialise(list)|
    ensures CString(Serialise(list)[at..]) + [NUL] <= Serialise(list)[at..]
  {
    var b := Serialise(list)[at..];
    assert b[|b| - 1] == NUL;
    assert CString(b) != b;
  }

  method Tcslen(b: array<char>, at: nat) returns (n: nat)
    requires at < b.Length && |CString(b[..][at..])| < b.Length - at
    ensures n == |CString(b[..][at..])|
  {
    n := 0;
    ghost var s := CString(b[..][at..]);
    while b[at + n] != NUL
      invariant n <= |s|
      decreases |s| - n
    {
      assert b[..][at..][n] == b[at + n];
      n := n + 1;
    }
    assert b[..][at..][n] == b[at + n];
    assert n == |s|;
  }

  /** What a reader finds first. */
  lemma ReadOne(c: seq<char>, s: string)
    requires Safe(c) && s == CString(c)
    ensures |s| < |c| && (c[0] == NUL <==> s == [])
    ensures s == [] ==> Strings(c) == []
    ensures s != [] ==> Safe(c[|s| + 1..]) && Strings(c) == [s] + Strings(c[|s| + 1..])
  {
  }

  /** Where a reader stops: at the start of every string, and at the NUL that
      stands for the empty one. */
  ghost predicate IsLayout(b: seq<char>, list: seq<string>, at: seq<nat>) {
    && |at| == |list| + 1
    && at[|list|] < |b| && b[at[|list|]] == NUL
    && forall k | 0 <= k < |list| :: Stop(b, list[k], at[k], at[k + 1])
  }

  ghost predicate Stop(b: seq<char>, s: string, at: nat, next: nat) {
    StartsAt(b, at, s) && b[at] != NUL && next == at + |s| + 1 && next < |b|
  }

  lemma {:induction false} Layout(b: seq<char>, scan: nat, list: seq<string>) returns (at: seq<nat>)
    requires scan <= |b| && Safe(b[scan..]) && list == Strings(b[scan..])
    ensures IsLayout(b, list, at) && at[0] == scan && at[|list|] == scan + TotalLength(list)
    decreases |list|
  {
    var next := ReadStop(b, scan, list);
    if list == [] {
      at := [scan];
    } else {
      var rest := Layout(b, next, list[1..]);
      LayoutCons(b, scan, list, rest);
      at := [scan] + rest;
    }
  }

  lemma DropBehind(b: seq<char>, scan: nat, n: nat, c: seq<char>, next: nat)
    requires scan <= |b| && c == b[scan..] && n <= |c| && next == scan + n
    ensures c[n..] == b[next..]
  {
  }

  /** The same inside a buffer, with what follows the string. */
  lemma ReadOneAt(b: seq<char>, scan: nat) returns (s: string, next: nat)
    requires scan <= |b| && Safe(b[scan..])
    ensures s == CString(b[scan..]) && next == scan + |s| + 1 <= |b| && (b[scan] == NUL <==> s == [])
    ensures s == [] ==> Strings(b[scan..]) == []
    ensures s != [] ==> Safe(b[next..]) && Strings(b[scan..]) == [s] + Strings(b[next..])
  {
    var c := b[scan..];
    s, next := CString(c), scan + |CString(c)| + 1;
    ReadOne(c, s);
    assert c[0] == b[scan];
    if s != [] {
      DropBehind(b, scan, |s| + 1, c, next);
    }
  }

  lemma ReadStop(b: seq<char>, scan: nat, list: seq<string>) returns (next: nat)
    requires scan <= |b| && Safe(b[scan..]) && list == Strings(b[scan..])
    ensures list == [] ==> scan < |b| && b[scan] == NUL
    ensures list != [] ==>
              && next == scan + |list[0]| + 1 && next <= |b| && Stop(b, list[0], scan, next)
              && Safe(b[next..]) && list[1..] == Strings(b[next..])
  {
    var s;
    s, next := ReadOneAt(b, scan);
    if s != [] {
      SafeInside(b, next);
    }
  }

  lemma SafeInside(b: seq<char>, scan: nat)
    requires scan <= |b| && Safe(b[scan..])
    ensures scan < |b|
  {
  }

  lemma LayoutCons(b: seq<char>, scan: nat, list: seq<string>, rest: seq<nat>)
    requires list != [] && IsLayout(b, list[1..], rest) && Stop(b, list[0], scan, rest[0])
    ensures IsLayout(b, list, [scan] + rest)
  {
    var at := [scan] + rest;
    forall k | 0 <= k < |list|
      ensures Stop(b, list[k], at[k], at[k + 1])
    {
      if k > 0 {
        assert list[k] == list[1..][k - 1] && at[k] == rest[k - 1] && at[k + 1] == rest[k];
      }
    }
  }

  /** The index array of a buffer: one pass counts, one fills the slots. */
  method GetMultiSzIndexArray(multiSz: array<char>) returns (slots: array<int>)
    requires Safe(multiSz[..])
    ensures fresh(slots) && IsIndex(slots[..], multiSz[..])
  {
    ghost var list := Strings(multiSz[..]);
    assert multiSz[..][0..] == multiSz[..];
    ghost var at := Layout(multiSz[..], 0, list);
    var elements := CountStrings(multiSz, list, at);
    slots := new int[elements + 2](_ => NULL);
    slots[0] := 0;
    FillSlots(multiSz, slots, list, at);
  }

  method FillSlots(multiSz: array<char>, slots: array<int>, ghost list: seq<string>, ghost at: seq<nat>)
    requires IsLayout(multiSz[..], list, at) && at[0] == 0
    requires slots.Length == |list| + 2
    modifies slots
    ensures slots[0] == old(slots[0]) && slots[|list| + 1] == NULL
    ensures forall i | 0 <= i < |list| :: StartsAt(multiSz[..], slots[i + 1], list[i])
  {
    var scan: nat, k: nat := 0, 0;
    while multiSz[scan] != NUL
      invariant k <= |list| && scan == at[k] && scan < multiSz.Length
      invariant slots[0] == old(slots[0])
      invariant forall i | 0 <= i < k :: slots[i + 1] == at[i]
      decreases |list| - k
    {
      assert k < |list| && Stop(multiSz[..], list[k], at[k], at[k + 1]);
      slots[k + 1] := scan;
      var n := Tcslen(multiSz, scan);
      scan := scan + n + 1;
      k := k + 1;
    }
    assert k < |list| ==> Stop(multiSz[..], list[k], at[k], at[k + 1]);
    slots[k + 1] := NULL;
    forall i | 0 <= i < |list|
      ensures StartsAt(multiSz[..], slots[i + 1], list[i])
    {
      assert Stop(multiSz[..], list[i], at[i], at[i + 1]);
    }
  }

  method CountStrings(multiSz: array<char>, ghost list: seq<string>, ghost at: seq<nat>) returns (elements: nat)
    requires IsLayout(multiSz[..], list, at) && at[0] == 0
    ensures elements == |list|
  {
    var scan: nat := 0;
    elements := 0;
    while multiSz[scan] != NUL
      invariant elements <= |list| && scan == at[elements] && scan < multiSz.Length
      decreases |list| - elements
    {
      assert elements < |list| && Stop(multiSz[..], list[elements], at[elements], at[elements + 1]);
      var n := Tcslen(multiSz, scan);
      scan := scan + n + 1;
      elements := elements + 1;
    }
    assert elements < |list| ==> Stop(multiSz[..], list[elements], at[elements], at[elements + 1]);
  }

  /** A buffer with the strings of the list in it, and its index array. */
  method CopyMultiSz(list: seq<string>) returns (multiSz: array<char>, slots: array<int>)
    requires NulFree(list)
    ensures fresh(multiSz) && fresh(slots)
    ensures multiSz[..] == Serialise(list) && IsIndex(slots[..], multiSz[..])
    ensures Clean(list) ==> Strings(multiSz[..]) == list
  {
    var cchMultiSz := 0;
    var c := 0;
    while c < |list|
      invariant c <= |list| && cchMultiSz == TotalLength(list[..c])
    {
      assert list[..c + 1] == list[..c] + [list[c]];
      TotalSnoc(list[..c], list[c]);
      cchMultiSz := cchMultiSz + |list[c]| + 1;
      c := c + 1;
    }
    assert list[..c] == list;
    JoinedLength(list);
    cchMultiSz := cchMultiSz + 1;
    multiSz := new char[cchMultiSz];
    Fill(multiSz, list);
    SafeSerialised(list);
    RoundTrip(list);
    slots := GetMultiSzIndexArray(multiSz);
  }

  /** The new list of an edit, as a buffer. */
  method CopyList(list: seq<string>) returns (multiSz: array<char>)
    requires NulFree(list)
    ensures fresh(multiSz) && multiSz[..] == Serialise(list)
  {
    var slots;
    multiSz, slots := CopyMultiSz(list);
  }

  /** The copies one behind the other, and the last NUL. */
  method Fill(multiSz: array<char>, list: seq<string>)
    requires NulFree(list) && multiSz.Length == TotalLength(list) + 1
    modifies multiSz
    ensures multiSz[..] == Serialise(list)
  {
    var len, c := 0, 0;
    JoinedLength(list);
    while c < |list|
      invariant c <= |list| && len == TotalLength(list[..c]) == |Joined(list[..c])|
      invariant len < multiSz.Length && multiSz[..len] == Joined(list[..c])
    {
      TotalSplit(list, c);
      JoinedSnoc(list[..c], list[c]);
      assert list[..c + 1] == list[..c] + [list[c]];
      StringCchCopy(multiSz, len, list[c]);
      assert multiSz[..len + |list[c]| + 1] == multiSz[..len] + list[c] + [NUL];
      len := len + |list[c]| + 1;
      c := c + 1;
    }
    assert list[..c] == list;
    multiSz[len] := NUL;
    assert multiSz[..] == multiSz[..len] + [NUL];
  }

  lemma {:induction false} TotalSplit(list: seq<string>, c: nat)
    requires c < |list|
    ensures TotalLength(list[..c]) + |list[c]| + 1 == TotalLength(list[..c + 1]) <= TotalLength(list)
    decreases |list| - c
  {
    assert list[..c + 1] == list[..c] + [list[c]];
    TotalSnoc(list[..c], list[c]);
    if c + 1 < |list| {
      TotalSplit(list, c + 1);
    } else {
      assert list[..c + 1] == list;
    }
  }

  method StringCchCopy(dest: array<char>, at: nat, s: string)
    requires at + |s| < dest.Length
    modifies dest
    ensures dest[..at] == old(dest[..at])
    ensures dest[at..at + |s|] == s && dest[at + |s|] == NUL
    ensures dest[at + |s| + 1..] == old(dest[at + |s| + 1..])
  {
    forall i | 0 <= i < |s| {
      dest[at + i] := s[i];
    }
    dest[at + |s|] := NUL;
  }

  // ---------------------------------------------------------------------
  // The registry

  const DWORD_MAX := 0xFFFF_FFFF
  const CHARACTER_SIZE := 2

  /** What a list leaves in a registry value: nothing when it is empty. */
  function Stored(list: seq<string>): (r: Option<seq<char>>)
    ensures r.None? <==> list == []
    ensures r.Some? && Clean(list) ==> Strings(r.value) == list
  {
    if list == [] then None
    else
      assert Clean(list) ==> Strings(Serialise(list)) == list by {
        if Clean(list) {
          RoundTrip(list);
        }
      }
      Some(Serialise(list))
  }

  predicate Fits(list: seq<string>) {
    CHARACTER_SIZE * (TotalLength(list) + 1) <= DWORD_MAX
  }

  /** The length that is written to the registry: everything up to and including
      the NUL behind the last string. */
  method CommittedLength(multiSz: array<char>) returns (len: nat)
    requires Safe(multiSz[..])
    ensures len == TotalLength(Strings(multiSz[..])) + 1
  {
    ghost var list := Strings(multiSz[..]);
    assert multiSz[..][0..] == multiSz[..];
    ghost var at := Layout(multiSz[..], 0, list);
    len := EndOfStrings(multiSz, list, at);
    len := len + 1;
  }

  method EndOfStrings(multiSz: array<char>, ghost list: seq<string>, ghost at: seq<nat>) returns (p: nat)
    requires IsLayout(multiSz[..], list, at) && at[0] == 0
    ensures p == at[|list|]
  {
    p := 0;
    ghost var k: nat := 0;
    while multiSz[p] != NUL
      invariant k <= |list| && p == at[k] && p < multiSz.Length
      decreases |list| - k
    {
      assert k < |list| && Stop(multiSz[..], list[k], at[k], at[k + 1]);
      var n := Tcslen(multiSz, p);
      p := p + n + 1;
      k := k + 1;
    }
    assert k < |list| ==> Stop(multiSz[..], list[k], at[k], at[k + 1]);
  }
}
