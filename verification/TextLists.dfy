/** Lists of identifiers that are compared without regard to case. */
module TextLists {
  import opened CaseFold

  lemma SameTextSymmetric(s: string, t: string)
    ensures SameText(s, t) <==> SameText(t, s)
  {
  }

  lemma SameTextTransitive(s: string, t: string, u: string)
    requires SameText(s, t)
    ensures SameText(s, u) <==> SameText(t, u)
  {
  }

  /** How often an identifier occurs. */
  function Occurrences(list: seq<string>, id: string): nat {
    if list == [] then 0 else (if SameText(list[0], id) then 1 else 0) + Occurrences(list[1..], id)
  }

  /** The list without an identifier. */
  function Without(list: seq<string>, id: string): seq<string> {
    if list == [] then []
    else if SameText(list[0], id) then Without(list[1..], id)
    else [list[0]] + Without(list[1..], id)
  }

  /** Whether one of the names is this identifier. */
  predicate NamedIn(names: seq<string>, id: string) {
    exists i | 0 <= i < |names| :: SameText(names[i], id)
  }

  /** The identifiers that none of the names is, in their order. */
  function Others(list: seq<string>, names: seq<string>): seq<string> {
    if list == [] then []
    else if NamedIn(names, list[0]) then Others(list[1..], names)
    else [list[0]] + Others(list[1..], names)
  }

  lemma {:induction false} OccurrencesConcat(a: seq<string>, b: seq<string>, id: string)
    ensures Occurrences(a + b, id) == Occurrences(a, id) + Occurrences(b, id)
  {
    if a == [] {
      assert a + b == b;
    } else {
      assert (a + b)[1..] == a[1..] + b;
      OccurrencesConcat(a[1..], b, id);
    }
  }

  lemma OccurrencesOne(s: string, id: string)
    ensures Occurrences([s], id) == if SameText(s, id) then 1 else 0
  {
    assert [s][1..] == [];
  }

  lemma {:induction false} OccurrencesPositive(list: seq<string>, id: string)
    ensures Occurrences(list, id) > 0 <==> exists i | 0 <= i < |list| :: SameText(list[i], id)
  {
    if list != [] {
      OccurrencesPositive(list[1..], id);
      if i :| 0 <= i < |list[1..]| && SameText(list[1..][i], id) {
        assert SameText(list[i + 1], id);
      }
      if i :| 0 <= i < |list| && SameText(list[i], id) && i > 0 {
        assert SameText(list[1..][i - 1], id);
      }
    }
  }

  /** Taking one identifier out leaves the number of every other as it was. */
  lemma {:induction false} OccurrencesWithout(list: seq<string>, gone: string, id: string)
    ensures Occurrences(Without(list, gone), id) == if SameText(gone, id) then 0 else Occurrences(list, id)
  {
    if list != [] {
      OccurrencesWithout(list[1..], gone, id);
      if SameText(list[0], gone) {
        SameTextTransitive(list[0], gone, id);
      } else {
        SameTextSymmetric(list[0], gone);
        if SameText(gone, id) {
          SameTextTransitive(gone, id, list[0]);
          SameTextSymmetric(list[0], id);
        }
        OccurrencesConcat([list[0]], Without(list[1..], gone), id);
        OccurrencesOne(list[0], id);
      }
    }
  }

  lemma {:induction false} OthersConcat(a: seq<string>, b: seq<string>, names: seq<string>)
    ensures Others(a + b, names) == Others(a, names) + Others(b, names)
  {
    if a == [] {
      assert a + b == b;
    } else {
      assert (a + b)[1..] == a[1..] + b;
      OthersConcat(a[1..], b, names);
    }
  }

  lemma OthersOne(s: string, names: seq<string>)
    ensures Others([s], names) == if NamedIn(names, s) then [] else [s]
  {
    assert [s][1..] == [];
  }

  lemma {:induction false} OthersWithout(list: seq<string>, gone: string, names: seq<string>)
    requires NamedIn(names, gone)
    ensures Others(Without(list, gone), names) == Others(list, names)
  {
    if list != [] {
      OthersWithout(list[1..], gone, names);
      OthersConcat([list[0]], Without(list[1..], gone), names);
      OthersOne(list[0], names);
      if SameText(list[0], gone) {
        NamedAlike(names, gone, list[0]);
      }
    }
  }

  lemma NamedAlike(names: seq<string>, s: string, t: string)
    requires SameText(t, s)
    ensures NamedIn(names, s) <==> NamedIn(names, t)
  {
    forall i | 0 <= i < |names|
      ensures SameText(names[i], s) <==> SameText(names[i], t)
    {
    }
  }

  lemma {:induction false} WithoutConcat(a: seq<string>, b: seq<string>, id: string)
    ensures Without(a + b, id) == Without(a, id) + Without(b, id)
  {
    if a == [] {
      assert a + b == b;
    } else {
      assert (a + b)[1..] == a[1..] + b;
      WithoutConcat(a[1..], b, id);
    }
  }

  lemma WithoutOne(s: string, id: string)
    ensures Without([s], id) == if SameText(s, id) then [] else [s]
  {
    assert [s][1..] == [];
  }

  lemma WithoutSnoc(list: seq<string>, s: string, id: string)
    ensures Without(list + [s], id) == Without(list, id) + if SameText(s, id) then [] else [s]
  {
    WithoutConcat(list, [s], id);
    WithoutOne(s, id);
  }

  lemma {:induction false} WithoutMembers(list: seq<string>, id: string)
    ensures |Without(list, id)| <= |list|
    ensures forall i | 0 <= i < |Without(list, id)| :: Without(list, id)[i] in list
  {
    if list != [] {
      WithoutMembers(list[1..], id);
    }
  }

  lemma {:induction false} NothingLeft(list: seq<string>, id: string)
    ensures Without(list, id) == [] <==> forall i | 0 <= i < |list| :: SameText(list[i], id)
  {
    if list != [] {
      NothingLeft(list[1..], id);
      if forall i | 0 <= i < |list| :: SameText(list[i], id) {
        forall i | 0 <= i < |list[1..]|
          ensures SameText(list[1..][i], id)
        {
          assert list[1..][i] == list[i + 1];
        }
      }
      if Without(list, id) == [] {
        forall i | 0 <= i < |list|
          ensures SameText(list[i], id)
        {
          if i > 0 {
            assert list[1..][i - 1] == list[i];
          }
        }
      }
    }
  }
}
