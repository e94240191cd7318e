/** hclient, how the data items of a device are grouped into reports: an item
    belongs to the report of its report id. */
module Reports {
  import opened BitArithmetic

  /** A data item: a set of buttons with a range of usages and a buffer for the
      ones that are down, or a value. */
  datatype HidData =
    | Button(reportId: Byte, isDataSet: bool, usageMin: nat, usageMax: nat, usages: seq<nat>)
    | Value(reportId: Byte, isDataSet: bool, value: int, scaledValue: int)

  /** Whether the parser accepts an item, by the item at which the report was
      begun and the item itself. */
  type Outcome = (nat, nat) -> bool

  /** A report: its id and the items in it. */
  datatype Report = Report(id: Byte, items: seq<nat>)

  function Ids(data: seq<HidData>): seq<Byte> {
    seq(|data|, i requires 0 <= i < |data| => data[i].reportId)
  }

  // ---------------------------------------------------------------------
  // What is sent

  /** The items of an id from lo up to hi. */
  function Matching(ids: seq<Byte>, id: Byte, lo: nat, hi: nat): seq<nat>
    requires lo <= hi <= |ids|
    decreases hi
  {
    if lo == hi then [] else Matching(ids, id, lo, hi - 1) + if ids[hi - 1] == id then [hi - 1] else []
  }

  /** The first item of an id, from lo on, that the parser rejects. */
  function FirstFailure(ids: seq<Byte>, id: Byte, report: nat, lo: nat, accepts: Outcome): (f: nat)
    requires lo <= |ids|
    ensures lo <= f <= |ids|
    ensures f < |ids| ==> ids[f] == id && !accepts(report, f)
    ensures forall j | lo <= j < f && ids[j] == id :: accepts(report, j)
    decreases |ids| - lo
  {
    if lo == |ids| || (ids[lo] == id && !accepts(report, lo)) then lo
    else FirstFailure(ids, id, report, lo + 1, accepts)
  }

  /** The report begun at an item gets everything it should. */
  predicate Complete(ids: seq<Byte>, start: nat, accepts: Outcome)
    requires start < |ids|
  {
    FirstFailure(ids, ids[start], start, start, accepts) == |ids|
  }

  function Packed(ids: seq<Byte>, start: nat, accepts: Outcome): Report
    requires start < |ids|
  {
    Report(ids[start], Matching(ids, ids[start], start, FirstFailure(ids, ids[start], start, start, accepts)))
  }

  /** A complete report is begun at one of the first n items of the id. */
  ghost predicate Covered(ids: seq<Byte>, id: Byte, n: nat, accepts: Outcome)
    requires n <= |ids|
  {
    exists j | 0 <= j < n :: ids[j] == id && Complete(ids, j, accepts)
  }

  /** A report is sent at an item unless a complete one has been sent before. */
  ghost function Sends(ids: seq<Byte>, n: nat, accepts: Outcome): seq<Report>
    requires n <= |ids|
  {
    if n == 0 then []
    else if Covered(ids, ids[n - 1], n - 1, accepts) then Sends(ids, n - 1, accepts)
    else Sends(ids, n - 1, accepts) + [Packed(ids, n - 1, accepts)]
  }

  /** The first item of each id among the first n. */
  function Firsts(ids: seq<Byte>, n: nat): seq<nat>
    requires n <= |ids|
  {
    if n == 0 then [] else Firsts(ids, n - 1) + if ids[n - 1] in ids[..n - 1] then [] else [n - 1]
  }

  /** Whatever fails, at least one report is sent for each id, and at most one for
      each item. */
  lemma {:induction false} SendsBounded(ids: seq<Byte>, n: nat, accepts: Outcome)
    requires n <= |ids|
    ensures |Firsts(ids, n)| <= |Sends(ids, n, accepts)| <= n
  {
    if n > 0 {
      SendsBounded(ids, n - 1, accepts);
      if Covered(ids, ids[n - 1], n - 1, accepts) {
        var j :| 0 <= j < n - 1 && ids[j] == ids[n - 1];
        assert ids[..n - 1][j] == ids[n - 1];
      }
    }
  }

  lemma {:induction false} MatchingAll(ids: seq<Byte>, id: Byte, lo: nat, hi: nat)
    requires lo <= hi <= |ids|
    ensures forall i :: i in Matching(ids, id, lo, hi) <==> lo <= i < hi && ids[i] == id
    ensures forall k, l | 0 <= k < l < |Matching(ids, id, lo, hi)| ::
              Matching(ids, id, lo, hi)[k] < Matching(ids, id, lo, hi)[l]
    decreases hi
  {
    if lo < hi {
      MatchingAll(ids, id, lo, hi - 1);
      var before := Matching(ids, id, lo, hi - 1);
      if ids[hi - 1] == id {
        forall k | 0 <= k < |before|
          ensures before[k] < hi - 1
        {
          assert before[k] in before;
        }
      }
    }
  }

  /** The items of a report: those of its id from its first one on, up to the first
      that the parser rejects, each once and in their order. */
  lemma PackedItems(ids: seq<Byte>, start: nat, accepts: Outcome)
    requires start < |ids|
    ensures
      var r := Packed(ids, start, accepts);
      && r.id == ids[start]
      && (forall i :: i in r.items <==>
            start <= i < |ids| && ids[i] == ids[start]
            && forall j | start <= j <= i && ids[j] == ids[start] :: accepts(start, j))
      && forall k, l | 0 <= k < l < |r.items| :: r.items[k] < r.items[l]
  {
    MatchingAll(ids, ids[start], start, FirstFailure(ids, ids[start], start, start, accepts));
  }

  /** A report is sent at an item exactly when in each one that was begun for its id
      before, some item was rejected. */
  lemma SentAgain(ids: seq<Byte>, n: nat, accepts: Outcome)
    requires n < |ids|
    ensures Sends(ids, n + 1, accepts) ==
            Sends(ids, n, accepts)
            + if forall j | 0 <= j < n && ids[j] == ids[n] :: Fails(ids, j, accepts) then [Packed(ids, n, accepts)]
              else []
  {
    forall j | 0 <= j < n && ids[j] == ids[n]
      ensures Fails(ids, j, accepts) <==> !Complete(ids, j, accepts)
    {
    }
  }

  predicate Fails(ids: seq<Byte>, start: nat, accepts: Outcome)
    requires start < |ids|
  {
    exists i | start <= i < |ids| && ids[i] == ids[start] :: !accepts(start, i)
  }

  lemma {:induction false} MatchingSkips(ids: seq<Byte>, id: Byte, mid: nat, hi: nat)
    requires mid <= hi <= |ids| && id !in ids[..mid]
    ensures Matching(ids, id, 0, hi) == Matching(ids, id, mid, hi)
    decreases hi
  {
    if mid < hi {
      MatchingSkips(ids, id, mid, hi - 1);
    } else {
      MatchingNone(ids, id, hi);
    }
  }

  lemma {:induction false} MatchingNone(ids: seq<Byte>, id: Byte, hi: nat)
    requires hi <= |ids| && id !in ids[..hi]
    ensures Matching(ids, id, 0, hi) == []
  {
    if hi > 0 {
      assert ids[..hi][hi - 1] == ids[hi - 1] && ids[..hi - 1] == ids[..hi][..hi - 1];
      MatchingNone(ids, id, hi - 1);
    }
  }

  /** The reports that ought to be sent: one for each id, in the order in which
      the ids come up, with all its items. */
  function Wanted(ids: seq<Byte>, n: nat): seq<Report>
    requires n <= |ids|
  {
    if n == 0 then []
    else Wanted(ids, n - 1)
         + if ids[n - 1] in ids[..n - 1] then [] else [Report(ids[n - 1], Matching(ids, ids[n - 1], 0, |ids|))]
  }

  /** They are sent when the parser accepts every item. */
  lemma {:induction false} SendsWanted(ids: seq<Byte>, n: nat, accepts: Outcome)
    requires n <= |ids|
    requires forall start, i | 0 <= start <= i < |ids| && ids[start] == ids[i] :: accepts(start, i)
    ensures Sends(ids, n, accepts) == Wanted(ids, n)
  {
    if n > 0 {
      SendsWanted(ids, n - 1, accepts);
      var id := ids[n - 1];
      if id in ids[..n - 1] {
        var j :| 0 <= j < |ids[..n - 1]| && ids[..n - 1][j] == id;
        assert ids[j] == id && Complete(ids, j, accepts);
      } else {
        assert !Covered(ids, id, n - 1, accepts) by {
          forall j | 0 <= j < n - 1
            ensures ids[j] != id
          {
            assert ids[..n - 1][j] == ids[j];
          }
        }
        assert Complete(ids, n - 1, accepts);
        MatchingSkips(ids, id, n - 1, |ids|);
      }
    }
  }

  lemma {:induction false} FirstsAre(ids: seq<Byte>, n: nat)
    requires n <= |ids|
    ensures forall i :: i in Firsts(ids, n) <==> 0 <= i < n && ids[i] !in ids[..i]
    ensures forall k, l | 0 <= k < l < |Firsts(ids, n)| :: Firsts(ids, n)[k] < Firsts(ids, n)[l]
  {
    if n > 0 {
      FirstsAre(ids, n - 1);
      var before := Firsts(ids, n - 1);
      forall k | 0 <= k < |before|
        ensures before[k] < n - 1
      {
        assert before[k] in before;
      }
    }
  }

  lemma {:induction false} WantedFirsts(ids: seq<Byte>, n: nat)
    requires n <= |ids|
    ensures |Wanted(ids, n)| == |Firsts(ids, n)|
    ensures forall k | 0 <= k < |Firsts(ids, n)| ::
              Firsts(ids, n)[k] < n
              && Wanted(ids, n)[k] ==
                 Report(ids[Firsts(ids, n)[k]], Matching(ids, ids[Firsts(ids, n)[k]], 0, |ids|))
  {
    if n > 0 {
      WantedFirsts(ids, n - 1);
    }
  }

  lemma FirstOf(ids: seq<Byte>, i: nat) returns (first: nat)
    requires i < |ids|
    ensures first <= i && ids[first] == ids[i] && ids[first] !in ids[..first]
  {
    first := 0;
    while ids[first] != ids[i]
      invariant first <= i && ids[i] !in ids[..first]
      decreases i - first
    {
      assert ids[..first + 1] == ids[..first] + [ids[first]];
      first := first + 1;
    }
  }

  /** Each of them is for another id. */
  lemma WantedDiffer(ids: seq<Byte>, k: nat, l: nat)
    requires k < l < |Wanted(ids, |ids|)|
    ensures Wanted(ids, |ids|)[k].id != Wanted(ids, |ids|)[l].id
  {
    var n, firsts := |ids|, Firsts(ids, |ids|);
    WantedFirsts(ids, n);
    FirstsAre(ids, n);
    assert firsts[l] in firsts;
    assert ids[..firsts[l]][firsts[k]] == ids[firsts[k]];
  }

  /** Each item is in exactly one of them, the one of its id. */
  lemma WantedOnce(ids: seq<Byte>, i: nat) returns (k: nat)
    requires i < |ids|
    ensures k < |Wanted(ids, |ids|)| && Wanted(ids, |ids|)[k].id == ids[i]
    ensures forall l | 0 <= l < |Wanted(ids, |ids|)| :: i in Wanted(ids, |ids|)[l].items <==> l == k
  {
    var n, firsts, wanted := |ids|, Firsts(ids, |ids|), Wanted(ids, |ids|);
    WantedFirsts(ids, n);
    FirstsAre(ids, n);
    var first := FirstOf(ids, i);
    assert first in firsts;
    k :| 0 <= k < |firsts| && firsts[k] == first;
    forall l | 0 <= l < |wanted|
      ensures i in wanted[l].items <==> l == k
    {
      MatchingAll(ids, wanted[l].id, 0, n);
      if l < k {
        WantedDiffer(ids, l, k);
      } else if k < l {
        WantedDiffer(ids, k, l);
      }
    }
  }

  // ---------------------------------------------------------------------
  // What is asked for

  /** A report that is asked for at item s fills item i. */
  predicate FilledBy(ids: seq<Byte>, s: nat, i: nat, accepts: Outcome)
    requires s < |ids| && i < |ids|
  {
    ids[s] == ids[i] && i < FirstFailure(ids, ids[s], s, 0, accepts)
  }

  /** A report is asked for at an item that no earlier one has filled. */
  ghost predicate Requested(ids: seq<Byte>, i: nat, delivers: nat -> bool, accepts: Outcome)
    requires i < |ids|
    decreases i
  {
    forall s | 0 <= s < i :: Requested(ids, s, delivers, accepts) && delivers(s) ==> !FilledBy(ids, s, i, accepts)
  }

  /** Nothing is asked for at an item exactly when an answer to an earlier request
      for its id has got as far as that item. */
  lemma AskedAgain(ids: seq<Byte>, n: nat, delivers: nat -> bool, accepts: Outcome)
    requires n < |ids|
    ensures Requests(ids, n + 1, delivers, accepts) ==
            Requests(ids, n, delivers, accepts)
            + if exists s | 0 <= s < n && s in Requests(ids, n, delivers, accepts) ::
                   GotTo(ids, s, n, delivers, accepts)
              then []
              else [n]
  {
    RequestsAre(ids, n, delivers, accepts);
    forall s | 0 <= s < n
      ensures GotTo(ids, s, n, delivers, accepts) <==> delivers(s) && FilledBy(ids, s, n, accepts)
    {
    }
  }

  /** The answer to the request at s covers item i. */
  predicate GotTo(ids: seq<Byte>, s: nat, i: nat, delivers: nat -> bool, accepts: Outcome)
    requires s < |ids| && i < |ids|
  {
    delivers(s) && ids[s] == ids[i] && forall j | 0 <= j <= i && ids[j] == ids[i] :: accepts(s, j)
  }

  lemma {:induction false} RequestsAre(ids: seq<Byte>, n: nat, delivers: nat -> bool, accepts: Outcome)
    requires n <= |ids|
    ensures forall s :: s in Requests(ids, n, delivers, accepts) <==> 0 <= s < n && Requested(ids, s, delivers, accepts)
  {
    if n > 0 {
      RequestsAre(ids, n - 1, delivers, accepts);
    }
  }

  ghost function Requests(ids: seq<Byte>, n: nat, delivers: nat -> bool, accepts: Outcome): seq<nat>
    requires n <= |ids|
  {
    if n == 0 then []
    else if Requested(ids, n - 1, delivers, accepts) then Requests(ids, n - 1, delivers, accepts) + [n - 1]
    else Requests(ids, n - 1, delivers, accepts)
  }

  lemma FirstRequested(ids: seq<Byte>, i: nat, delivers: nat -> bool, accepts: Outcome)
    requires i < |ids| && ids[i] !in ids[..i]
    ensures Requested(ids, i, delivers, accepts)
  {
    forall s | 0 <= s < i
      ensures !FilledBy(ids, s, i, accepts)
    {
      assert ids[..i][s] == ids[s];
    }
  }

  /** Whatever fails, each id is asked for, and no item asks twice. */
  lemma {:induction false} RequestsBounded(ids: seq<Byte>, n: nat, delivers: nat -> bool, accepts: Outcome)
    requires n <= |ids|
    ensures |Firsts(ids, n)| <= |Requests(ids, n, delivers, accepts)| <= n
  {
    if n > 0 {
      RequestsBounded(ids, n - 1, delivers, accepts);
      if ids[n - 1] !in ids[..n - 1] {
        FirstRequested(ids, n - 1, delivers, accepts);
      }
    }
  }

  /** When nothing fails each id is asked for once, at its first item. */
  lemma {:induction false} RequestsFirsts(ids: seq<Byte>, n: nat, delivers: nat -> bool, accepts: Outcome)
    requires n <= |ids|
    requires forall s | 0 <= s < |ids| :: delivers(s)
    requires forall s, i | 0 <= s < |ids| && 0 <= i < |ids| :: accepts(s, i)
    ensures Requests(ids, n, delivers, accepts) == Firsts(ids, n)
  {
    if n > 0 {
      RequestsFirsts(ids, n - 1, delivers, accepts);
      if ids[n - 1] !in ids[..n - 1] {
        FirstRequested(ids, n - 1, delivers, accepts);
      } else {
        var first := FirstOf(ids, n - 1);
        var j :| 0 <= j < |ids[..n - 1]| && ids[..n - 1][j] == ids[n - 1];
        assert ids[..n - 1][j] == ids[j];
        NotFirst(ids, j, n - 1, first);
        FirstRequested(ids, first, delivers, accepts);
        assert FilledBy(ids, first, n - 1, accepts);
      }
    }
  }

  lemma NotFirst(ids: seq<Byte>, j: nat, i: nat, first: nat)
    requires j < i < |ids| && ids[j] == ids[i]
    requires first <= i && ids[first] == ids[i] && ids[first] !in ids[..first]
    ensures first < i
  {
    assert ids[..i][j] == ids[j];
  }
}
