/** What the order of the children can change in a release: only which of the
    children tied at the least eligible count is pulled into `Other`. */
module Ties {
  import opened Collections
  import opened Privacy
  import opened OtherFloor

  // ---------- Permuted children ----------

  lemma {:induction false} OccursOfAppend(a: seq<RawCell>, b: seq<RawCell>, v: nat)
    ensures Occurs(a + b, v) == Occurs(a, v) + Occurs(b, v)
  {
    if |a| == 0 {
      assert a + b == b;
    } else {
      assert (a + b)[1..] == a[1..] + b;
      OccursOfAppend(a[1..], b, v);
    }
  }

  /** A list is one of its cells and the rest. */
  lemma {:induction false} RemoveAt(cells: seq<RawCell>, j: nat, v: nat)
    requires j < |cells|
    ensures var rest := cells[..j] + cells[j + 1..];
            && Occurs(cells, v) == Occurs(rest, v) + Occurs([cells[j]], v)
            && TotalUsers(cells) == TotalUsers(rest) + cells[j].users
            && TotalEvents(cells) == TotalEvents(rest) + cells[j].events
  {
    hide Occurs, TotalUsers, TotalEvents;
    var front, one, back := cells[..j], [cells[j]], cells[j + 1..];
    assert cells == front + (one + back);
    OccursOfAppend(front, one + back, v);
    OccursOfAppend(one, back, v);
    OccursOfAppend(front, back, v);
    TotalsOfAppend(front, one + back);
    TotalsOfAppend(one, back);
    TotalsOfAppend(front, back);
    TotalsOfOne(cells[j]);
  }

  /** The same cells in another order have the same counts and totals. */
  lemma {:induction false} SameCells(a: seq<RawCell>, b: seq<RawCell>, v: nat)
    requires Permuted(a, b)
    ensures |a| == |b| && Occurs(a, v) == Occurs(b, v)
    ensures TotalUsers(a) == TotalUsers(b) && TotalEvents(a) == TotalEvents(b)
    decreases |a|
  {
    if |a| > 0 {
      hide Permuted, Occurs, TotalUsers, TotalEvents;
      var j := PermutedRest(a, b);
      SameCells(a[1..], b[..j] + b[j + 1..], v);
      RemoveAt(a, 0, v);
      assert a[..0] + a[1..] == a[1..];
      RemoveAt(b, j, v);
    } else {
      PermutedEmpty(a, b);
    }
  }

  lemma {:induction false} SameCounts(a: seq<RawCell>, b: seq<RawCell>)
    requires Permuted(a, b)
    ensures forall v: nat :: Occurs(a, v) == Occurs(b, v)
    ensures multiset(Counts(a)) == multiset(Counts(b))
  {
    hide Occurs, Counts, Permuted;
    forall v: nat
      ensures Occurs(a, v) == Occurs(b, v) && multiset(Counts(a))[v] == multiset(Counts(b))[v]
    {
      SameCells(a, b, v);
      OccursIsMultiplicity(a, v);
      OccursIsMultiplicity(b, v);
    }
  }

  lemma {:induction false} SplitCopies(cells: seq<RawCell>, k: nat, c: RawCell)
    ensures Copies(Eligible(cells, k), c) == if c.users >= k then Copies(cells, c) else 0
    ensures Copies(BelowK(cells, k), c) == if c.users < k then Copies(cells, c) else 0
  {
    if |cells| > 0 {
      SplitCopies(cells[1..], k, c);
      CopiesOfAppend(if cells[0].users >= k then [cells[0]] else [], Eligible(cells[1..], k), c);
      CopiesOfAppend(if cells[0].users < k then [cells[0]] else [], BelowK(cells[1..], k), c);
      CopiesOfOne(cells[0], c);
    }
  }

  lemma {:induction false} CopiesOfOne<T>(y: T, x: T)
    ensures Copies([y], x) == (if x == y then 1 else 0) && Copies([], x) == 0
  {
  }

  lemma {:induction false} InsertCopies(cell: RawCell, sorted: seq<RawCell>, c: RawCell)
    ensures Copies(InsertByUsers(cell, sorted), c) == Copies(sorted, c) + if c == cell then 1 else 0
  {
    if |sorted| == 0 || cell.users <= sorted[0].users {
      assert InsertByUsers(cell, sorted)[1..] == sorted;
    } else {
      InsertCopies(cell, sorted[1..], c);
      assert InsertByUsers(cell, sorted)[1..] == InsertByUsers(cell, sorted[1..]);
    }
  }

  lemma {:induction false} SortCopies(cells: seq<RawCell>, c: RawCell)
    ensures Copies(SortByUsers(cells), c) == Copies(cells, c)
  {
    if |cells| > 0 {
      SortCopies(cells[1..], c);
      InsertCopies(cells[0], SortByUsers(cells[1..]), c);
    }
  }

  /** The split of the same children, in another order, has the same cells. */
  lemma {:induction false} SameSplit(a: seq<RawCell>, b: seq<RawCell>, k: nat)
    requires Permuted(a, b)
    ensures Permuted(Eligible(a, k), Eligible(b, k)) && Permuted(BelowK(a, k), BelowK(b, k))
    ensures Permuted(SortByUsers(Eligible(a, k)), SortByUsers(Eligible(b, k)))
  {
    hide SortByUsers, Eligible, BelowK, Copies;
    forall c
      ensures Copies(Eligible(a, k), c) == Copies(Eligible(b, k), c)
      ensures Copies(BelowK(a, k), c) == Copies(BelowK(b, k), c)
      ensures Copies(SortByUsers(Eligible(a, k)), c) == Copies(SortByUsers(Eligible(b, k)), c)
    {
      assert Copies(a, c) == Copies(b, c);
      SplitCopies(a, k, c);
      SplitCopies(b, k, c);
      SortCopies(Eligible(a, k), c);
      SortCopies(Eligible(b, k), c);
    }
  }

  // ---------- The release ----------

  /** The least count among the children that may be shown. */
  function LeastCount(children: seq<RawCell>, k: nat): nat {
    var e := SortByUsers(Eligible(children, k));
    if |e| == 0 then 0 else e[0].users
  }

  /** Two releases of the same children, in two orders: one pulls if and only if
      the other does, and then a child of the same count; the cells shown are the
      same but for cells at that count, and all of them if nothing is pulled. */
  lemma {:induction false} ReleasesDifferInTies(parentUsers: nat, a: seq<RawCell>, b: seq<RawCell>, k: nat)
    requires Permuted(a, b)
    ensures Pulls(parentUsers, a, k) == Pulls(parentUsers, b, k) && LeastCount(a, k) == LeastCount(b, k)
    ensures var x, y := ReleaseOf(parentUsers, a, k), ReleaseOf(parentUsers, b, k);
            && x.hiddenUsers == y.hiddenUsers && |x.hidden| == |y.hidden|
            && (!Pulls(parentUsers, a, k) ==>
                  Permuted(x.visible, y.visible) && TotalEvents(x.hidden) == TotalEvents(y.hidden))
            && (forall c: RawCell :: c.users != LeastCount(a, k) ==> Copies(x.visible, c) == Copies(y.visible, c))
  {
    hide SortByUsers, Eligible, BelowK, TotalUsers, TotalEvents, Copies, Permuted;
    var d, e := SortByUsers(Eligible(a, k)), SortByUsers(Eligible(b, k));
    SameSplit(a, b, k);
    SameCells(a, b, 0);
    SameCells(d, e, 0);
    SameCells(BelowK(a, k), BelowK(b, k), 0);
    SortedSizes(a, k);
    SortedSizes(b, k);
    SameLeast(a, b, k);
    forall c: RawCell | c.users != LeastCount(a, k)
      ensures Copies(ReleaseOf(parentUsers, a, k).visible, c) == Copies(ReleaseOf(parentUsers, b, k).visible, c)
    {
      PermutedAt(d, e, c);
      if |d| > 0 {
        CopiesOfRest(d, c);
        CopiesOfRest(e, c);
      }
    }
  }

  lemma {:induction false} PermutedAt<T(!new)>(a: seq<T>, b: seq<T>, x: T)
    requires Permuted(a, b)
    ensures Copies(a, x) == Copies(b, x)
  {
  }

  lemma {:induction false} CopiesOfRest<T>(s: seq<T>, x: T)
    requires |s| > 0 && x != s[0]
    ensures Copies(s[1..], x) == Copies(s, x)
  {
  }

  lemma {:induction false} SameLeast(a: seq<RawCell>, b: seq<RawCell>, k: nat)
    requires Permuted(a, b)
    ensures var d, e := SortByUsers(Eligible(a, k)), SortByUsers(Eligible(b, k));
            |d| == |e| && (|d| > 0 ==> d[0].users == e[0].users)
  {
    hide SortByUsers, Eligible, Permuted, Occurs, Counts;
    SameSplit(a, b, k);
    SameCounts(Eligible(a, k), Eligible(b, k));
    SortedCountsAgree(Eligible(a, k), Eligible(b, k));
    var d, e := SortByUsers(Eligible(a, k)), SortByUsers(Eligible(b, k));
    assert |Counts(d)| == |d| && |Counts(e)| == |e|;
    if |d| > 0 {
      assert Counts(d)[0] == d[0].users && Counts(e)[0] == e[0].users;
    }
  }

  lemma {:induction false} SortedSizes(children: seq<RawCell>, k: nat)
    ensures var e := SortByUsers(Eligible(children, k));
            && |e| == |Eligible(children, k)|
            && TotalUsers(e) + TotalUsers(BelowK(children, k)) == TotalUsers(children)
  {
    hide TotalUsers;
    TotalsOfSplit(children, k);
    TotalsOfSort(Eligible(children, k));
  }

  // ---------- The answer ----------

  lemma {:induction false} ShowCopies(cells: seq<RawCell>, c: RawCell)
    ensures Copies(ShowAll(cells), Show(c)) == Copies(cells, c)
  {
    if |cells| > 0 {
      ShowCopies(cells[1..], c);
    }
  }

  /** The child a visible cell shows. */
  function ChildOf(x: ResultCell): RawCell
    requires x.Visible?
  {
    RawCell(x.family, x.wiki, x.namespace, x.events, x.users)
  }

  lemma {:induction false} VisibleCopies(parentUsers: nat, children: seq<RawCell>, k: nat, x: ResultCell)
    requires x.Visible?
    ensures Copies(Suppressed(parentUsers, children, k), x) ==
            Copies(ReleaseOf(parentUsers, children, k).visible, ChildOf(x))
  {
    hide ReleaseOf, ShowAll, TotalEvents, Copies;
    var r := ReleaseOf(parentUsers, children, k);
    ShowCopies(r.visible, ChildOf(x));
    assert Show(ChildOf(x)) == x;
    var other := Other(TotalEvents(r.hidden), r.hiddenUsers);
    CopiesOfAppend(ShowAll(r.visible), if ReleasesOther(r, k) then [other] else [], x);
    CopiesOfOne(other, x);
  }

  /** The cell `Other` of a release, if it has one. */
  function OtherOf(parentUsers: nat, children: seq<RawCell>, k: nat): Option<ResultCell> {
    var r := ReleaseOf(parentUsers, children, k);
    if ReleasesOther(r, k) then Some(Other(TotalEvents(r.hidden), r.hiddenUsers)) else None
  }

  /** Two lists of result cells differ at most in visible cells of `tied` users
      and in the events of `Other`. */
  ghost predicate AgreeBut(a: seq<ResultCell>, b: seq<ResultCell>, tied: nat) {
    forall x: ResultCell :: x.Visible? && x.users != tied ==> Copies(a, x) == Copies(b, x)
  }

  /** What the order of the children can change: nothing unless a child is pulled;
      then only visible cells at the least eligible count, and the events of
      `Other`. The user counts never differ. */
  lemma {:induction false} SuppressionDiffersInTies(parentUsers: nat, a: seq<RawCell>, b: seq<RawCell>, k: nat)
    requires Permuted(a, b)
    ensures AgreeBut(Suppressed(parentUsers, a, k), Suppressed(parentUsers, b, k), LeastCount(a, k))
    ensures ResultCounts(Suppressed(parentUsers, a, k)) == ResultCounts(Suppressed(parentUsers, b, k))
    ensures !Pulls(parentUsers, a, k) ==>
              && Permuted(Suppressed(parentUsers, a, k), Suppressed(parentUsers, b, k))
  {
    hide ReleaseOf, Pulls, LeastCount, TotalEvents, Suppressed, Permuted, Counts, ResultCounts, Copies;
    ReleasesDifferInTies(parentUsers, a, b, k);
    SameCounts(a, b);
    SuppressionIgnoresOrder(parentUsers, a, b, k);
    forall x: ResultCell | x.Visible? && (x.users != LeastCount(a, k) || !Pulls(parentUsers, a, k))
      ensures Copies(Suppressed(parentUsers, a, k), x) == Copies(Suppressed(parentUsers, b, k), x)
    {
      VisibleCopies(parentUsers, a, k, x);
      VisibleCopies(parentUsers, b, k, x);
      if !Pulls(parentUsers, a, k) {
        PermutedAt(ReleaseOf(parentUsers, a, k).visible, ReleaseOf(parentUsers, b, k).visible, ChildOf(x));
      }
    }
    if !Pulls(parentUsers, a, k) {
      forall x: ResultCell
        ensures Copies(Suppressed(parentUsers, a, k), x) == Copies(Suppressed(parentUsers, b, k), x)
      {
        if x.Other? {
          OtherCopies(parentUsers, a, k, x);
          OtherCopies(parentUsers, b, k, x);
        }
      }
      PermutedAll(Suppressed(parentUsers, a, k), Suppressed(parentUsers, b, k));
    }
  }

  lemma {:induction false} PermutedAll<T(!new)>(a: seq<T>, b: seq<T>)
    requires forall x :: Copies(a, x) == Copies(b, x)
    ensures Permuted(a, b)
  {
  }

  lemma {:induction false} OtherCopies(parentUsers: nat, children: seq<RawCell>, k: nat, x: ResultCell)
    requires x.Other?
    ensures Copies(Suppressed(parentUsers, children, k), x) ==
            if OtherOf(parentUsers, children, k) == Some(x) then 1 else 0
  {
    hide ReleaseOf, TotalEvents, Copies;
    var r := ReleaseOf(parentUsers, children, k);
    var other := Other(TotalEvents(r.hidden), r.hiddenUsers);
    NotShown(r.visible, x);
    CopiesOfAppend(ShowAll(r.visible), if ReleasesOther(r, k) then [other] else [], x);
    CopiesOfOne(other, x);
  }

  lemma {:induction false} NotShown(cells: seq<RawCell>, x: ResultCell)
    requires x.Other?
    ensures Copies(ShowAll(cells), x) == 0
  {
    if |cells| > 0 {
      NotShown(cells[1..], x);
    }
  }
}
