/** How many people stand behind the cell `Other`: its number adds up hidden
    children that may share users, a limitation crates/query-api/src/privacy.rs
    names. This is when the floor of `k` holds for the people all the same. */
module OtherFloor {
  import opened Collections
  import opened Privacy

  function UnionOf<T>(people: seq<set<T>>): set<T> {
    if |people| == 0 then {} else people[0] + UnionOf(people[1..])
  }

  /** One set of people per cell, of the cell's size; cells may share people. */
  ghost predicate Describes<T>(cells: seq<RawCell>, people: seq<set<T>>) {
    |people| == |cells| && forall i :: 0 <= i < |cells| ==> |people[i]| == cells[i].users
  }

  /** People who would give the parent and every child the counts they have. */
  ghost predicate Explains<T>(parentUsers: nat, r: Release, shown: seq<set<T>>, hidden: seq<set<T>>) {
    && Describes(r.visible, shown) && Describes(r.hidden, hidden)
    && |UnionOf(shown) + UnionOf(hidden)| == parentUsers
  }

  /** The guard of the pull loop. */
  predicate Pulls(parentUsers: nat, children: seq<RawCell>, k: nat) {
    && 0 < TotalUsers(BelowK(children, k)) + SaturatingSub(parentUsers, TotalUsers(children)) < k
    && |Eligible(children, k)| > 0
  }

  lemma {:induction false} UnionHas<T>(people: seq<set<T>>, i: nat)
    requires i < |people|
    ensures people[i] <= UnionOf(people)
  {
    if i > 0 {
      UnionHas(people[1..], i - 1);
    }
  }

  lemma {:induction false} UnionBound<T>(cells: seq<RawCell>, people: seq<set<T>>)
    requires Describes(cells, people)
    ensures |UnionOf(people)| <= TotalUsers(cells)
  {
    if |cells| > 0 {
      UnionBound(cells[1..], people[1..]);
      SumCard(people[0], UnionOf(people[1..]));
    }
  }

  lemma {:induction false} SumCard<T>(a: set<T>, b: set<T>)
    ensures |a + b| <= |a| + |b|
  {
    assert a + b == a + (b - a);
    SubsetCard(b - a, b);
  }

  /** A pulled child has at least `k` users of its own; otherwise every eligible
      child is visible and every hidden one is below `k`. */
  lemma {:induction false} PullMeans(parentUsers: nat, children: seq<RawCell>, k: nat)
    ensures var r := ReleaseOf(parentUsers, children, k);
            if Pulls(parentUsers, children, k)
            then |r.hidden| > 0 && r.hidden[|r.hidden| - 1].users >= k
            else && TotalUsers(r.visible) == TotalUsers(Eligible(children, k)) && r.hidden == BelowK(children, k)
                 && forall i :: 0 <= i < |r.hidden| ==> r.hidden[i].users < k
  {
    hide SortByUsers, Eligible, BelowK, TotalUsers;
    TotalsOfSplit(children, k);
    TotalsOfSort(Eligible(children, k));
    SortKeepsEligible(children, k);
    BelowKSmall(children, k);
  }

  lemma {:induction false} BelowKSmall(cells: seq<RawCell>, k: nat)
    ensures forall i :: 0 <= i < |BelowK(cells, k)| ==> BelowK(cells, k)[i].users < k
  {
    if |cells| > 0 {
      BelowKSmall(cells[1..], k);
    }
  }

  /** Enough people stand behind `Other` when a child was pulled into it, or when
      the parent has `k` more users than the visible children together. */
  lemma {:induction false} OtherDescribesK<T>(parentUsers: nat, children: seq<RawCell>, k: nat, shown: seq<set<T>>,
                                              hidden: seq<set<T>>)
    requires Explains(parentUsers, ReleaseOf(parentUsers, children, k), shown, hidden)
    requires Pulls(parentUsers, children, k) || parentUsers >= TotalUsers(Eligible(children, k)) + k
    ensures |UnionOf(hidden)| >= k
  {
    hide ReleaseOf, Eligible, BelowK, UnionOf, TotalUsers, Pulls;
    var r := ReleaseOf(parentUsers, children, k);
    PullMeans(parentUsers, children, k);
    if Pulls(parentUsers, children, k) {
      var i := |r.hidden| - 1;
      UnionHas(hidden, i);
      SubsetCard(hidden[i], UnionOf(hidden));
    } else {
      UnionBound(r.visible, shown);
      SumCard(UnionOf(shown), UnionOf(hidden));
    }
  }

  function Interval(a: int, b: int): set<int>
    decreases b - a
  {
    if a >= b then {} else Interval(a, b - 1) + {b - 1}
  }

  lemma {:induction false} IntervalIs(a: int, b: int)
    ensures forall x :: x in Interval(a, b) <==> a <= x < b
    ensures a <= b ==> |Interval(a, b)| == b - a
    decreases b - a
  {
    if a < b {
      IntervalIs(a, b - 1);
    }
  }

  /** People below `n` for each cell, the first new one being `c`: as few of them
      shared as it takes to stay below `n`. */
  function Place(cells: seq<RawCell>, n: nat, c: nat): seq<set<int>> {
    if |cells| == 0 then []
    else
      var start := Min(c, n - cells[0].users);
      [Interval(start, start + cells[0].users)] + Place(cells[1..], n, Min(n, c + cells[0].users))
  }

  /** Placed cells have their sizes, and together with the first `c` people they
      are everyone below `n`, or as many as the cells hold. */
  lemma {:induction false} PlaceCovers(cells: seq<RawCell>, n: nat, c: nat)
    requires c <= n && forall i :: 0 <= i < |cells| ==> cells[i].users <= n
    ensures Describes(cells, Place(cells, n, c))
    ensures Interval(0, c) + UnionOf(Place(cells, n, c)) == Interval(0, Min(n, c + TotalUsers(cells)))
    decreases |cells|
  {
    hide Interval, UnionOf, TotalUsers, Describes;
    if |cells| == 0 {
      PlaceNothing(cells, n, c);
    } else {
      var u := cells[0].users;
      var start, next := Min(c, n - u), Min(n, c + u);
      var first, rest := Interval(start, start + u), Place(cells[1..], n, next);
      PlaceCovers(cells[1..], n, next);
      assert Place(cells, n, c) == [first] + rest;
      hide Place;
      IntervalIs(start, start + u);
      DescribesCons(cells, first, rest);
      UnionCons(first, rest);
      Joins(c, u, n);
      TotalsOfCons(cells);
      Chain(Interval(0, c), first, UnionOf(rest), Interval(0, next), UnionOf([first] + rest));
    }
  }

  lemma {:induction false} PlaceNothing(cells: seq<RawCell>, n: nat, c: nat)
    requires |cells| == 0 && c <= n
    ensures Describes(cells, Place(cells, n, c))
    ensures Interval(0, c) + UnionOf(Place(cells, n, c)) == Interval(0, Min(n, c + TotalUsers(cells)))
  {
  }

  lemma {:induction false} Chain<T>(a: set<T>, b: set<T>, c: set<T>, ab: set<T>, bc: set<T>)
    requires ab == a + b && bc == b + c
    ensures a + bc == ab + c
  {
  }

  lemma {:induction false} Joins(c: nat, u: nat, n: nat)
    requires c <= n && u <= n
    ensures Interval(0, c) + Interval(Min(c, n - u), Min(c, n - u) + u) == Interval(0, Min(n, c + u))
  {
    hide Interval;
    var start := Min(c, n - u);
    IntervalIs(0, c);
    IntervalIs(start, start + u);
    IntervalIs(0, Min(n, c + u));
    var joined, whole := Interval(0, c) + Interval(start, start + u), Interval(0, Min(n, c + u));
    assert forall x :: x in joined <==> x in whole;
  }

  lemma {:induction false} DescribesCons<T>(cells: seq<RawCell>, first: set<T>, rest: seq<set<T>>)
    requires |cells| > 0 && |first| == cells[0].users && Describes(cells[1..], rest)
    ensures Describes(cells, [first] + rest)
  {
  }

  lemma {:induction false} UnionCons<T>(first: set<T>, rest: seq<set<T>>)
    ensures UnionOf([first] + rest) == first + UnionOf(rest)
  {
    assert ([first] + rest)[1..] == rest;
  }

  /** The largest of the cells, and how it compares with their sum. */
  function Largest(cells: seq<RawCell>): (m: nat)
    ensures forall i :: 0 <= i < |cells| ==> cells[i].users <= m
    ensures m == 0 || exists i :: 0 <= i < |cells| && cells[i].users == m
    ensures m <= TotalUsers(cells)
  {
    if |cells| == 0 then 0
    else
      var rest := Largest(cells[1..]);
      assert forall i :: 1 <= i < |cells| ==> cells[i] == cells[1..][i - 1];
      Max(cells[0].users, rest)
  }

  /** The smallest group the hidden children can be, given all counts. */
  lemma {:induction false} FewestBehindOther(parentUsers: nat, r: Release, m: nat)
      returns (shown: seq<set<int>>, hidden: seq<set<int>>)
    requires forall i :: 0 <= i < |r.visible| ==> r.visible[i].users <= parentUsers
    requires Largest(r.hidden) <= m <= Min(parentUsers, TotalUsers(r.hidden))
    requires parentUsers <= m + TotalUsers(r.visible)
    ensures Explains(parentUsers, r, shown, hidden) && |UnionOf(hidden)| == m
  {
    hide UnionOf, Interval, TotalUsers, Place;
    hidden := Place(r.hidden, m, 0);
    PlaceCovers(r.hidden, m, 0);
    NobodyYet(UnionOf(hidden));
    IntervalIs(0, m);
    IntervalIs(0, parentUsers);
    shown := Place(r.visible, parentUsers, m);
    PlaceCovers(r.visible, parentUsers, m);
    assert UnionOf(shown) + UnionOf(hidden) == Interval(0, m) + UnionOf(shown);
  }

  /** The floor on people, exactly: with the counts `suppress` is given, at least
      `k` people stand behind `Other` whoever they are if and only if a child was
      pulled into it, or the parent has `k` more users than the eligible children
      together. Hidden children below `k` may all be the same people. */
  lemma {:induction false} OtherFloorIff(parentUsers: nat, children: seq<RawCell>, k: nat)
    requires parentUsers <= TotalUsers(children)
    requires forall i :: 0 <= i < |children| ==> children[i].users <= parentUsers
    requires HasOther(Suppressed(parentUsers, children, k))
    ensures (forall shown: seq<set<int>>, hidden ::
               Explains(parentUsers, ReleaseOf(parentUsers, children, k), shown, hidden) ==> |UnionOf(hidden)| >= k)
       <==> Pulls(parentUsers, children, k) || parentUsers >= TotalUsers(Eligible(children, k)) + k
  {
    hide Eligible, BelowK, UnionOf, TotalUsers, Pulls, Explains, ReleaseOf;
    var r := ReleaseOf(parentUsers, children, k);
    if Pulls(parentUsers, children, k) || parentUsers >= TotalUsers(Eligible(children, k)) + k {
      forall shown: seq<set<int>>, hidden | Explains(parentUsers, r, shown, hidden)
        ensures |UnionOf(hidden)| >= k
      {
        OtherDescribesK(parentUsers, children, k, shown, hidden);
      }
    } else {
      PullMeans(parentUsers, children, k);
      ReleaseConserves(parentUsers, children, k);
      ReleaseWithin(parentUsers, children, k);
      var m := Max(Largest(r.hidden), parentUsers - TotalUsers(r.visible));
      var shown, hidden := FewestBehindOther(parentUsers, r, m);
    }
  }

  /** Released and hidden cells are children, and the totals add up. */
  lemma {:induction false} ReleaseWithin(parentUsers: nat, children: seq<RawCell>, k: nat)
    requires forall i :: 0 <= i < |children| ==> children[i].users <= parentUsers
    ensures var r := ReleaseOf(parentUsers, children, k);
            && (forall i :: 0 <= i < |r.visible| ==> r.visible[i].users <= parentUsers)
            && Largest(r.hidden) <= parentUsers
            && TotalUsers(r.visible) + TotalUsers(r.hidden) == TotalUsers(children)
  {
    hide ReleaseOf, TotalUsers;
    ReleaseTotals(parentUsers, children, k);
    var r := ReleaseOf(parentUsers, children, k);
    forall c | c in r.visible || c in r.hidden
      ensures c.users <= parentUsers
    {
      EveryChildIsSomewhere(parentUsers, children, k, c);
      var i :| 0 <= i < |children| && children[i] == c;
    }
    assert forall i :: 0 <= i < |r.visible| ==> r.visible[i] in r.visible;
    assert forall i :: 0 <= i < |r.hidden| ==> r.hidden[i] in r.hidden;
  }

  lemma {:induction false} ReleaseTotals(parentUsers: nat, children: seq<RawCell>, k: nat)
    ensures var r := ReleaseOf(parentUsers, children, k);
            TotalUsers(r.visible) + TotalUsers(r.hidden) == TotalUsers(children)
  {
    hide SortByUsers, Eligible, BelowK, TotalUsers;
    TotalsOfSplit(children, k);
    TotalsOfSort(Eligible(children, k));
    var visible := SortByUsers(Eligible(children, k));
    if |visible| > 0 {
      TotalsOfAppend(BelowK(children, k), [visible[0]]);
      TotalsOfOne(visible[0]);
      TotalsOfCons(visible);
    }
  }

  lemma {:induction false} EveryChildIsSomewhere(parentUsers: nat, children: seq<RawCell>, k: nat, c: RawCell)
    ensures var r := ReleaseOf(parentUsers, children, k); c in children <==> c in r.visible || c in r.hidden
  {
    hide SortByUsers, Eligible, BelowK, TotalUsers;
    SplitKeepsAll(children, k, c);
    var visible := SortByUsers(Eligible(children, k));
    if |visible| > 0 {
      assert visible == [visible[0]] + visible[1..];
    }
  }

  lemma {:induction false} SplitKeepsAll(cells: seq<RawCell>, k: nat, c: RawCell)
    ensures c in cells <==> c in Eligible(cells, k) || c in BelowK(cells, k)
  {
    if |cells| > 0 {
      SplitKeepsAll(cells[1..], k, c);
    }
  }

  /** Without the parent's count, only a pulled child guarantees `k` people. */
  lemma {:induction false} OtherFloorFromChildrenIff(parentUsers: nat, children: seq<RawCell>, k: nat)
    requires HasOther(Suppressed(parentUsers, children, k))
    ensures (forall hidden: seq<set<int>> ::
               Describes(ReleaseOf(parentUsers, children, k).hidden, hidden) ==> |UnionOf(hidden)| >= k)
       <==> Pulls(parentUsers, children, k)
  {
    hide Eligible, BelowK, UnionOf, TotalUsers, Pulls, ReleaseOf, Place, Interval;
    var r := ReleaseOf(parentUsers, children, k);
    PullMeans(parentUsers, children, k);
    if Pulls(parentUsers, children, k) {
      forall hidden: seq<set<int>> | Describes(r.hidden, hidden)
        ensures |UnionOf(hidden)| >= k
      {
        UnionHas(hidden, |r.hidden| - 1);
        SubsetCard(hidden[|r.hidden| - 1], UnionOf(hidden));
      }
    } else {
      var m := Largest(r.hidden);
      PlaceCovers(r.hidden, m, 0);
      NobodyYet(UnionOf(Place(r.hidden, m, 0)));
      IntervalIs(0, m);
    }
  }

  lemma {:induction false} NobodyYet(a: set<int>)
    ensures Interval(0, 0) + a == a
  {
  }

  // ---------- Subtracting from the parent ----------

  /** Subtracting what is shown from the parent's own number leaves nobody or at
      least `k`, or nothing was shown. */
  predicate DifferenceSafe(parentUsers: nat, shown: seq<RawCell>, k: nat) {
    shown == [] || parentUsers <= TotalUsers(shown) || parentUsers - TotalUsers(shown) >= k
  }

  /** How many of the children that may be shown a pull takes away, and with how
      many users. */
  function PulledCells(parentUsers: nat, children: seq<RawCell>, k: nat): nat {
    if Pulls(parentUsers, children, k) then 1 else 0
  }

  function PulledUsers(parentUsers: nat, children: seq<RawCell>, k: nat): nat {
    if Pulls(parentUsers, children, k) then SortByUsers(Eligible(children, k))[0].users else 0
  }

  lemma {:induction false} ShownIs(parentUsers: nat, children: seq<RawCell>, k: nat)
    ensures var shown := ReleaseOf(parentUsers, children, k).visible;
            && |shown| == |Eligible(children, k)| - PulledCells(parentUsers, children, k)
            && TotalUsers(shown) == TotalUsers(Eligible(children, k)) - PulledUsers(parentUsers, children, k)
  {
    hide SortByUsers, Eligible, BelowK, TotalUsers;
    TotalsOfSplit(children, k);
    TotalsOfSort(Eligible(children, k));
    var e := SortByUsers(Eligible(children, k));
    if |e| > 0 {
      TotalsOfCons(e);
    }
  }

  /** The code compares the hidden children's sum with `k`, not what the parent's
      own number gives away: when children share users the parent is below their
      sum, and the difference an observer computes may lie strictly between zero
      and `k`. It does so exactly when some eligible child stays visible and the
      parent is above the visible sum by less than `k`; never when the parent is
      at least the children's sum. */
  lemma {:induction false} ParentDifferenceIff(parentUsers: nat, children: seq<RawCell>, k: nat)
    ensures var left := TotalUsers(Eligible(children, k)) - PulledUsers(parentUsers, children, k);
            DifferenceSafe(parentUsers, ReleaseOf(parentUsers, children, k).visible, k) <==>
            !(|Eligible(children, k)| > PulledCells(parentUsers, children, k) && left < parentUsers < left + k)
    ensures parentUsers >= TotalUsers(children) ==>
              DifferenceSafe(parentUsers, ReleaseOf(parentUsers, children, k).visible, k)
  {
    hide ReleaseOf, Eligible, TotalUsers, PulledCells, PulledUsers;
    ShownIs(parentUsers, children, k);
    SuppressionSafe(parentUsers, children, k);
  }

  /** With one visible child the difference is the number of people outside it;
      with several it is at most the number of people outside them all. */
  lemma {:induction false} DifferenceCountsPeople<T>(parentUsers: nat, r: Release, shown: seq<set<T>>,
                                                     hidden: seq<set<T>>)
    requires Explains(parentUsers, r, shown, hidden)
    ensures var outside := UnionOf(shown) + UnionOf(hidden) - UnionOf(shown);
            && parentUsers - TotalUsers(r.visible) <= |outside|
            && (|r.visible| == 1 ==> parentUsers - TotalUsers(r.visible) == |outside|)
  {
    hide UnionOf, TotalUsers;
    var everyone, inside := UnionOf(shown) + UnionOf(hidden), UnionOf(shown);
    UnionBound(r.visible, shown);
    DifferenceCard(everyone, inside);
    if |r.visible| == 1 {
      UnionOfOne(shown);
      TotalsOfOne(r.visible[0]);
      assert r.visible == [r.visible[0]];
    }
  }

  lemma {:induction false} DifferenceCard<T>(a: set<T>, b: set<T>)
    requires b <= a
    ensures |a - b| == |a| - |b|
  {
    assert a == (a - b) + b;
  }

  lemma {:induction false} UnionOfOne<T>(people: seq<set<T>>)
    requires |people| == 1
    ensures UnionOf(people) == people[0]
  {
    assert people[1..] == [];
  }
}
