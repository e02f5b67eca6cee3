/** Threshold suppression: crates/query-api/src/privacy.rs. */
module Privacy {
  import opened Collections

  datatype RawCell = RawCell(family: string, wiki: string, namespace: int, events: nat, users: nat)

  datatype ResultCell =
    | Visible(family: string, wiki: string, namespace: int, events: nat, users: nat)
    | Other(events: nat, users: nat)

  const U64_LIMIT: nat := 0x1_0000_0000_0000_0000

  function TotalUsers(cells: seq<RawCell>): nat {
    if |cells| == 0 then 0 else cells[0].users + TotalUsers(cells[1..])
  }

  function TotalEvents(cells: seq<RawCell>): nat {
    if |cells| == 0 then 0 else cells[0].events + TotalEvents(cells[1..])
  }

  /** The most users the parent or its children account for. */
  function Population(parentUsers: nat, children: seq<RawCell>): nat {
    Max(parentUsers, TotalUsers(children))
  }

  function BelowK(cells: seq<RawCell>, k: nat): seq<RawCell> {
    if |cells| == 0 then []
    else (if cells[0].users < k then [cells[0]] else []) + BelowK(cells[1..], k)
  }

  function Eligible(cells: seq<RawCell>, k: nat): (r: seq<RawCell>)
    ensures forall i :: 0 <= i < |r| ==> r[i].users >= k
  {
    if |cells| == 0 then []
    else (if cells[0].users >= k then [cells[0]] else []) + Eligible(cells[1..], k)
  }

  predicate Ascending(cells: seq<RawCell>) {
    forall i, j :: 0 <= i < j < |cells| ==> cells[i].users <= cells[j].users
  }

  /** Places a cell before the first one with as many users. */
  function InsertByUsers(cell: RawCell, sorted: seq<RawCell>): (r: seq<RawCell>)
    ensures |r| == |sorted| + 1
    ensures forall c :: c in r <==> c == cell || c in sorted
  {
    if |sorted| == 0 || cell.users <= sorted[0].users then [cell] + sorted
    else [sorted[0]] + InsertByUsers(cell, sorted[1..])
  }

  /** The library's stable sort by user count. */
  function SortByUsers(cells: seq<RawCell>): (r: seq<RawCell>)
    ensures |r| == |cells|
    ensures forall c :: c in r <==> c in cells
  {
    if |cells| == 0 then [] else InsertByUsers(cells[0], SortByUsers(cells[1..]))
  }

  lemma {:induction false} InsertAscending(cell: RawCell, sorted: seq<RawCell>)
    requires Ascending(sorted)
    ensures Ascending(InsertByUsers(cell, sorted))
  {
    if |sorted| > 0 && cell.users > sorted[0].users {
      var rest := InsertByUsers(cell, sorted[1..]);
      InsertAscending(cell, sorted[1..]);
      forall i | 0 <= i < |rest|
        ensures sorted[0].users <= rest[i].users
      {
        assert rest[i] in rest;
      }
    }
  }

  lemma {:induction false} SortAscending(cells: seq<RawCell>)
    ensures Ascending(SortByUsers(cells))
  {
    if |cells| > 0 {
      SortAscending(cells[1..]);
      InsertAscending(cells[0], SortByUsers(cells[1..]));
    }
  }

  /** What suppression leaves: the cells shown, the cells hidden, and how many
      users the hidden side stands for. */
  datatype Release = Release(visible: seq<RawCell>, hidden: seq<RawCell>, hiddenUsers: nat)

  function SaturatingSub(a: nat, b: nat): nat {
    if a >= b then a - b else 0
  }

  /** Hides every child below `k`; if the hidden side is then a non-empty group
      below `k`, hides the smallest visible child too. */
  function ReleaseOf(parentUsers: nat, children: seq<RawCell>, k: nat): Release {
    var hidden := BelowK(children, k);
    var visible := SortByUsers(Eligible(children, k));
    var residual := SaturatingSub(parentUsers, TotalUsers(visible) + TotalUsers(hidden));
    var hiddenUsers := TotalUsers(hidden) + residual;
    if 0 < hiddenUsers < k && |visible| > 0
    then Release(visible[1..], hidden + [visible[0]], hiddenUsers + visible[0].users)
    else Release(visible, hidden, hiddenUsers)
  }

  function Show(c: RawCell): ResultCell {
    Visible(c.family, c.wiki, c.namespace, c.events, c.users)
  }

  function ShowAll(cells: seq<RawCell>): (r: seq<ResultCell>)
    ensures |r| == |cells| && forall i :: 0 <= i < |r| ==> r[i] == Show(cells[i])
  {
    if |cells| == 0 then [] else [Show(cells[0])] + ShowAll(cells[1..])
  }

  predicate ReleasesOther(r: Release, k: nat) {
    |r.hidden| > 0 && r.hiddenUsers >= k
  }

  /** `suppress`, as a function of its arguments. */
  function Suppressed(parentUsers: nat, children: seq<RawCell>, k: nat): seq<ResultCell> {
    var r := ReleaseOf(parentUsers, children, k);
    ShowAll(r.visible) + if ReleasesOther(r, k) then [Other(TotalEvents(r.hidden), r.hiddenUsers)] else []
  }

  predicate HasOther(cells: seq<ResultCell>) {
    exists i :: 0 <= i < |cells| && cells[i].Other?
  }

  /** `suppress_single`. */
  predicate SuppressSingle(cell: RawCell, k: nat) {
    cell.users >= k
  }

  // ---------- Sums ----------

  lemma {:induction false} TotalsOfAppend(a: seq<RawCell>, b: seq<RawCell>)
    ensures TotalUsers(a + b) == TotalUsers(a) + TotalUsers(b)
    ensures TotalEvents(a + b) == TotalEvents(a) + TotalEvents(b)
  {
    if |a| == 0 {
      assert a + b == b;
    } else {
      assert (a + b)[1..] == a[1..] + b;
      TotalsOfAppend(a[1..], b);
    }
  }

  /** Threshold splitting loses nobody. */
  lemma {:induction false} TotalsOfSplit(cells: seq<RawCell>, k: nat)
    ensures TotalUsers(BelowK(cells, k)) + TotalUsers(Eligible(cells, k)) == TotalUsers(cells)
    ensures TotalEvents(BelowK(cells, k)) + TotalEvents(Eligible(cells, k)) == TotalEvents(cells)
  {
    if |cells| > 0 {
      TotalsOfSplit(cells[1..], k);
      TotalsOfAppend(if cells[0].users < k then [cells[0]] else [], BelowK(cells[1..], k));
      TotalsOfAppend(if cells[0].users >= k then [cells[0]] else [], Eligible(cells[1..], k));
      TotalsOfOne(cells[0]);
      hide TotalUsers, TotalEvents;
      TotalsOfCons(cells);
    }
  }

  lemma {:induction false} TotalsOfOne(c: RawCell)
    ensures TotalUsers([c]) == c.users && TotalEvents([c]) == c.events
    ensures TotalUsers([]) == TotalEvents([]) == 0
  {
  }

  lemma {:induction false} TotalsOfCons(cells: seq<RawCell>)
    requires |cells| > 0
    ensures TotalUsers(cells) == cells[0].users + TotalUsers(cells[1..])
    ensures TotalEvents(cells) == cells[0].events + TotalEvents(cells[1..])
  {
  }

  lemma {:induction false} TotalsOfInsert(cell: RawCell, sorted: seq<RawCell>)
    ensures TotalUsers(InsertByUsers(cell, sorted)) == cell.users + TotalUsers(sorted)
    ensures TotalEvents(InsertByUsers(cell, sorted)) == cell.events + TotalEvents(sorted)
  {
    if |sorted| > 0 && cell.users > sorted[0].users {
      TotalsOfInsert(cell, sorted[1..]);
    }
  }

  lemma {:induction false} TotalsOfSort(cells: seq<RawCell>)
    ensures TotalUsers(SortByUsers(cells)) == TotalUsers(cells)
    ensures TotalEvents(SortByUsers(cells)) == TotalEvents(cells)
  {
    if |cells| > 0 {
      TotalsOfSort(cells[1..]);
      TotalsOfInsert(cells[0], SortByUsers(cells[1..]));
    }
  }

  // ---------- Safety and conservation ----------

  /** Everything not shown is on the hidden side: its user count is what an
      observer gets by subtraction, and its events are the children's rest. */
  lemma {:induction false} ReleaseConserves(parentUsers: nat, children: seq<RawCell>, k: nat)
    ensures var r := ReleaseOf(parentUsers, children, k);
            && r.hiddenUsers == Population(parentUsers, children) - TotalUsers(r.visible)
            && TotalEvents(r.visible) + TotalEvents(r.hidden) == TotalEvents(children)
  {
    TotalsOfSplit(children, k);
    TotalsOfSort(Eligible(children, k));
    var visible := SortByUsers(Eligible(children, k));
    if |visible| > 0 {
      TotalsOfAppend(BelowK(children, k), [visible[0]]);
      assert visible == [visible[0]] + visible[1..];
    }
  }

  /** No released number is below `k`, and subtracting what is shown from the
      larger of the parent and the children's sum leaves nobody, a group of at
      least `k`, or nothing was shown at all. What subtracting from the parent
      leaves, and how many people stand behind the number of `Other`, is the
      subject of `OtherFloor`. */
  lemma {:induction false} SuppressionSafe(parentUsers: nat, children: seq<RawCell>, k: nat)
    ensures forall i :: 0 <= i < |Suppressed(parentUsers, children, k)| ==>
              Suppressed(parentUsers, children, k)[i].users >= k
    ensures var shown := ReleaseOf(parentUsers, children, k).visible;
            var rest := Population(parentUsers, children) - TotalUsers(shown);
            rest == 0 || rest >= k || shown == []
  {
    ReleaseConserves(parentUsers, children, k);
    SortKeepsEligible(children, k);
  }

  lemma {:induction false} SortKeepsEligible(children: seq<RawCell>, k: nat)
    ensures forall i :: 0 <= i < |SortByUsers(Eligible(children, k))| ==>
              SortByUsers(Eligible(children, k))[i].users >= k
  {
    var eligible := Eligible(children, k);
    forall i | 0 <= i < |SortByUsers(eligible)|
      ensures SortByUsers(eligible)[i].users >= k
    {
      assert SortByUsers(eligible)[i] in SortByUsers(eligible);
      assert SortByUsers(eligible)[i] in eligible;
    }
  }

  /** When `Other` is released it closes the books exactly. */
  lemma {:induction false} OtherClosesTheBooks(parentUsers: nat, children: seq<RawCell>, k: nat)
    requires HasOther(Suppressed(parentUsers, children, k))
    ensures var r := ReleaseOf(parentUsers, children, k);
            var cells := Suppressed(parentUsers, children, k);
            && |cells| == |r.visible| + 1
            && cells[|r.visible|].Other?
            && TotalUsers(r.visible) + cells[|r.visible|].users == Population(parentUsers, children)
            && TotalEvents(r.visible) + cells[|r.visible|].events == TotalEvents(children)
  {
    ReleaseConserves(parentUsers, children, k);
  }

  // ---------- Optimality ----------

  /** A candidate release: which children to show. */
  predicate Admissible(parentUsers: nat, children: seq<RawCell>, k: nat, show: seq<bool>) {
    && |show| == |children|
    && (forall i :: 0 <= i < |show| && show[i] ==> children[i].users >= k)
    && (var rest := Population(parentUsers, children) - TotalUsers(Chosen(children, show));
        rest == 0 || rest >= k)
  }

  function Chosen(children: seq<RawCell>, show: seq<bool>): seq<RawCell>
    requires |show| == |children|
  {
    if |children| == 0 then []
    else (if show[0] then [children[0]] else []) + Chosen(children[1..], show[1..])
  }

  lemma {:induction false} ChosenTotals(children: seq<RawCell>, show: seq<bool>)
    requires |show| == |children| > 0
    ensures TotalUsers(Chosen(children, show)) ==
            (if show[0] then children[0].users else 0) + TotalUsers(Chosen(children[1..], show[1..]))
    ensures |Chosen(children, show)| == (if show[0] then 1 else 0) + |Chosen(children[1..], show[1..])|
  {
    TotalsOfAppend(if show[0] then [children[0]] else [], Chosen(children[1..], show[1..]));
  }

  lemma {:induction false} EligibleTotals(children: seq<RawCell>, k: nat)
    requires |children| > 0
    ensures TotalUsers(Eligible(children, k)) ==
            (if children[0].users >= k then children[0].users else 0) + TotalUsers(Eligible(children[1..], k))
    ensures |Eligible(children, k)| == (if children[0].users >= k then 1 else 0) + |Eligible(children[1..], k)|
  {
    TotalsOfAppend(if children[0].users >= k then [children[0]] else [], Eligible(children[1..], k));
  }

  /** A choice of eligible children is all of them, or leaves out at least one
      child of at least the smallest eligible size. */
  lemma {:induction false} ChosenOmits(children: seq<RawCell>, show: seq<bool>, k: nat, least: nat)
    requires |show| == |children| && forall i :: 0 <= i < |show| && show[i] ==> children[i].users >= k
    requires forall i :: 0 <= i < |children| && children[i].users >= k ==> children[i].users >= least
    ensures var chosen, all := Chosen(children, show), Eligible(children, k);
            || (TotalUsers(chosen) == TotalUsers(all) && |chosen| == |all|)
            || (TotalUsers(chosen) + least <= TotalUsers(all) && |chosen| + 1 <= |all|)
  {
    if |children| > 0 {
      ChosenTotals(children, show);
      EligibleTotals(children, k);
      ChosenOmits(children[1..], show[1..], k, least);
    }
  }

  lemma {:induction false} EligibleHasAll(children: seq<RawCell>, k: nat, i: nat)
    requires i < |children| && children[i].users >= k
    ensures children[i] in Eligible(children, k)
  {
    if i > 0 {
      EligibleHasAll(children[1..], k, i - 1);
    }
  }

  lemma {:induction false} LeastEligible(children: seq<RawCell>, k: nat, i: nat)
    requires i < |children| && children[i].users >= k
    ensures |SortByUsers(Eligible(children, k))| > 0
    ensures children[i].users >= SortByUsers(Eligible(children, k))[0].users
  {
    EligibleHasAll(children, k, i);
    SortAscending(Eligible(children, k));
  }

  /** Greedy is optimal on both counts at once: no admissible release shows more
      children, and none shows more users. */
  lemma {:induction false} SuppressionOptimal(parentUsers: nat, children: seq<RawCell>, k: nat, show: seq<bool>)
    requires Admissible(parentUsers, children, k, show)
    ensures |Chosen(children, show)| <= |ReleaseOf(parentUsers, children, k).visible|
    ensures TotalUsers(Chosen(children, show)) <= TotalUsers(ReleaseOf(parentUsers, children, k).visible)
  {
    hide SortByUsers, Eligible, BelowK, Chosen;
    var all := SortByUsers(Eligible(children, k));
    TotalsOfSplit(children, k);
    TotalsOfSort(Eligible(children, k));
    var least := if |all| > 0 then all[0].users else 0;
    forall i | 0 <= i < |children| && children[i].users >= k
      ensures children[i].users >= least
    {
      LeastEligible(children, k, i);
    }
    ChosenOmits(children, show, k, least);
  }

  /** The greedy release is itself a choice of children, and an admissible one
      unless it shows nothing. */
  lemma {:induction false} ReleaseIsAChoice(parentUsers: nat, children: seq<RawCell>, k: nat) returns (show: seq<bool>)
    ensures |show| == |children|
    ensures SortByUsers(Chosen(children, show)) == ReleaseOf(parentUsers, children, k).visible
    ensures ReleaseOf(parentUsers, children, k).visible != [] ==> Admissible(parentUsers, children, k, show)
  {
    hide SortByUsers, Eligible, BelowK, Chosen;
    var r := ReleaseOf(parentUsers, children, k);
    SuppressionSafe(parentUsers, children, k);
    if r.visible == SortByUsers(Eligible(children, k)) {
      show := ShowEligible(children, k);
    } else {
      show := ShowAllButLeast(children, k);
    }
    TotalsOfSort(Chosen(children, show));
  }

  lemma {:induction false} ShowEligible(children: seq<RawCell>, k: nat) returns (show: seq<bool>)
    ensures |show| == |children| && forall i :: 0 <= i < |show| ==> show[i] == (children[i].users >= k)
    ensures Chosen(children, show) == Eligible(children, k)
  {
    if |children| == 0 {
      show := [];
    } else {
      var rest := ShowEligible(children[1..], k);
      show := [children[0].users >= k] + rest;
      assert show[1..] == rest;
    }
  }

  lemma {:induction false} ChosenCons(children: seq<RawCell>, shown: bool, tail: seq<bool>)
    requires |children| == |tail| + 1
    ensures Chosen(children, [shown] + tail) == (if shown then [children[0]] else []) + Chosen(children[1..], tail)
  {
  }

  lemma {:induction false} SortCons(cell: RawCell, rest: seq<RawCell>)
    ensures SortByUsers([cell] + rest) == InsertByUsers(cell, SortByUsers(rest))
  {
  }

  /** Dropping the smallest cell after sorting is sorting all but one cell. */
  lemma {:induction false} ShowAllButLeast(children: seq<RawCell>, k: nat) returns (show: seq<bool>)
    requires |Eligible(children, k)| > 0
    ensures |show| == |children| && forall i :: 0 <= i < |show| && show[i] ==> children[i].users >= k
    ensures SortByUsers(Chosen(children, show)) == SortByUsers(Eligible(children, k))[1..]
  {
    hide SortByUsers, Chosen;
    var first, rest := children[0], Eligible(children[1..], k);
    var tail;
    if first.users < k {
      tail := ShowAllButLeast(children[1..], k);
      show := [false] + tail;
      ChosenCons(children, false, tail);
      assert Eligible(children, k) == rest;
      assert Chosen(children, show) == Chosen(children[1..], tail);
    } else if |rest| == 0 || first.users <= SortByUsers(rest)[0].users {
      tail := ShowEligible(children[1..], k);
      show := [false] + tail;
      ChosenCons(children, false, tail);
      SortCons(first, rest);
      assert Chosen(children, show) == rest;
    } else {
      tail := ShowAllButLeast(children[1..], k);
      show := [true] + tail;
      ChosenCons(children, true, tail);
      SortCons(first, rest);
      SortCons(first, Chosen(children[1..], tail));
    }
  }

  // ---------- Order ----------

  function Counts(cells: seq<RawCell>): (r: seq<nat>)
    ensures |r| == |cells| && forall i :: 0 <= i < |r| ==> r[i] == cells[i].users
  {
    if |cells| == 0 then [] else [cells[0].users] + Counts(cells[1..])
  }

  function ResultCounts(cells: seq<ResultCell>): (r: seq<nat>)
    ensures |r| == |cells| && forall i :: 0 <= i < |r| ==> r[i] == cells[i].users
  {
    if |cells| == 0 then [] else [cells[0].users] + ResultCounts(cells[1..])
  }

  /** How many cells have exactly `v` users. */
  function Occurs(cells: seq<RawCell>, v: nat): nat {
    if |cells| == 0 then 0 else (if cells[0].users == v then 1 else 0) + Occurs(cells[1..], v)
  }

  lemma {:induction false} OccursIsMultiplicity(cells: seq<RawCell>, v: nat)
    ensures Occurs(cells, v) == multiset(Counts(cells))[v]
  {
    if |cells| > 0 {
      OccursIsMultiplicity(cells[1..], v);
    }
  }

  lemma {:induction false} OccursEligible(cells: seq<RawCell>, k: nat, v: nat)
    ensures Occurs(Eligible(cells, k), v) == if v >= k then Occurs(cells, v) else 0
  {
    if |cells| > 0 {
      OccursEligible(cells[1..], k, v);
      if cells[0].users >= k {
        assert Eligible(cells, k)[1..] == Eligible(cells[1..], k);
      } else {
        assert Eligible(cells, k) == Eligible(cells[1..], k);
      }
    }
  }

  lemma {:induction false} OccursInsert(cell: RawCell, sorted: seq<RawCell>, v: nat)
    ensures Occurs(InsertByUsers(cell, sorted), v) == Occurs(sorted, v) + if cell.users == v then 1 else 0
  {
    if |sorted| == 0 || cell.users <= sorted[0].users {
      assert InsertByUsers(cell, sorted)[1..] == sorted;
    } else {
      OccursInsert(cell, sorted[1..], v);
      assert InsertByUsers(cell, sorted)[1..] == InsertByUsers(cell, sorted[1..]);
    }
  }

  lemma {:induction false} OccursSort(cells: seq<RawCell>, v: nat)
    ensures Occurs(SortByUsers(cells), v) == Occurs(cells, v)
  {
    if |cells| > 0 {
      OccursSort(cells[1..], v);
      OccursInsert(cells[0], SortByUsers(cells[1..]), v);
    }
  }

  lemma {:induction false} OccursBounds(cells: seq<RawCell>, v: nat)
    requires Ascending(cells) && Occurs(cells, v) > 0
    ensures |cells| > 0 && cells[0].users <= v
  {
    if cells[0].users != v {
      OccursBounds(cells[1..], v);
      assert cells[1..][0] == cells[1];
    }
  }

  /** Two ascending lists with the same counts show the same counts. */
  lemma {:induction false} AscendingUnique(a: seq<RawCell>, b: seq<RawCell>)
    requires Ascending(a) && Ascending(b) && forall v: nat :: Occurs(a, v) == Occurs(b, v)
    ensures Counts(a) == Counts(b)
    decreases |a|
  {
    assert |b| > 0 ==> Occurs(b, b[0].users) > 0;
    if |a| > 0 {
      OccursBounds(b, a[0].users);
      OccursBounds(a, b[0].users);
      forall v: nat
        ensures Occurs(a[1..], v) == Occurs(b[1..], v)
      {
        assert Occurs(a, v) == Occurs(b, v);
      }
      AscendingUnique(a[1..], b[1..]);
    }
  }

  lemma {:induction false} SameCountsSameTotal(a: seq<RawCell>, b: seq<RawCell>)
    requires Counts(a) == Counts(b)
    ensures TotalUsers(a) == TotalUsers(b) && |a| == |b|
  {
    assert |Counts(a)| == |a| && |Counts(b)| == |b|;
    if |a| > 0 {
      assert a[0].users == Counts(a)[0] && b[0].users == Counts(b)[0];
      assert Counts(a[1..]) == Counts(a)[1..] && Counts(b[1..]) == Counts(b)[1..];
      SameCountsSameTotal(a[1..], b[1..]);
    }
  }

  lemma {:induction false} SortedCountsAgree(a: seq<RawCell>, b: seq<RawCell>)
    requires forall v: nat :: Occurs(a, v) == Occurs(b, v)
    ensures Counts(SortByUsers(a)) == Counts(SortByUsers(b))
    ensures TotalUsers(a) == TotalUsers(b) && |a| == |b|
  {
    hide SortByUsers, Occurs, Counts;
    SortAscending(a);
    SortAscending(b);
    forall v: nat
      ensures Occurs(SortByUsers(a), v) == Occurs(SortByUsers(b), v)
    {
      OccursSort(a, v);
      OccursSort(b, v);
    }
    AscendingUnique(SortByUsers(a), SortByUsers(b));
    SameCountsSameTotal(SortByUsers(a), SortByUsers(b));
    TotalsOfSort(a);
    TotalsOfSort(b);
  }

  lemma {:induction false} HiddenCount(cells: seq<RawCell>, k: nat)
    ensures |BelowK(cells, k)| + |Eligible(cells, k)| == |cells|
  {
    if |cells| > 0 {
      HiddenCount(cells[1..], k);
    }
  }

  /** The sequence of released user counts depends only on the counts that went
      in, not on the order the database returned the children in. */
  lemma {:induction false} SuppressionIgnoresOrder(parentUsers: nat, a: seq<RawCell>, b: seq<RawCell>, k: nat)
    requires multiset(Counts(a)) == multiset(Counts(b))
    ensures ResultCounts(Suppressed(parentUsers, a, k)) == ResultCounts(Suppressed(parentUsers, b, k))
  {
    hide SortByUsers, Occurs, Counts, Eligible, BelowK, Suppressed, ReleaseOf;
    forall v: nat
      ensures Occurs(a, v) == Occurs(b, v) && Occurs(Eligible(a, k), v) == Occurs(Eligible(b, k), v)
    {
      OccursIsMultiplicity(a, v);
      OccursIsMultiplicity(b, v);
      OccursEligible(a, k, v);
      OccursEligible(b, k, v);
    }
    SortedCountsAgree(a, b);
    SortedCountsAgree(Eligible(a, k), Eligible(b, k));
    HiddenCount(a, k);
    HiddenCount(b, k);
    TotalsOfSplit(a, k);
    TotalsOfSplit(b, k);
    SameRelease(parentUsers, a, b, k);
    SameReleaseCounts(parentUsers, a, b, k);
  }

  ghost predicate SameShape(x: Release, y: Release) {
    && |x.visible| == |y.visible| && |x.hidden| == |y.hidden| && x.hiddenUsers == y.hiddenUsers
    && forall i :: 0 <= i < |x.visible| ==> x.visible[i].users == y.visible[i].users
  }

  lemma {:induction false} SameRelease(parentUsers: nat, a: seq<RawCell>, b: seq<RawCell>, k: nat)
    requires Counts(SortByUsers(Eligible(a, k))) == Counts(SortByUsers(Eligible(b, k)))
    requires TotalUsers(BelowK(a, k)) == TotalUsers(BelowK(b, k)) && |BelowK(a, k)| == |BelowK(b, k)|
    ensures SameShape(ReleaseOf(parentUsers, a, k), ReleaseOf(parentUsers, b, k))
  {
    hide SortByUsers, Counts, Eligible, BelowK, TotalUsers;
    var s, t := SortByUsers(Eligible(a, k)), SortByUsers(Eligible(b, k));
    SameCountsSameTotal(s, t);
    assert forall i :: 0 <= i < |s| ==> s[i].users == Counts(s)[i] && t[i].users == Counts(t)[i];
  }

  lemma {:induction false} SameReleaseCounts(parentUsers: nat, a: seq<RawCell>, b: seq<RawCell>, k: nat)
    requires SameShape(ReleaseOf(parentUsers, a, k), ReleaseOf(parentUsers, b, k))
    ensures ResultCounts(Suppressed(parentUsers, a, k)) == ResultCounts(Suppressed(parentUsers, b, k))
  {
  }

  // ---------- The algorithm ----------

  /** Addition on `u64`: the call sites prove that it cannot overflow. */
  function AddU64(a: nat, b: nat): nat
    requires a + b < U64_LIMIT
  {
    a + b
  }

  /** The running sums of `suppress`. */
  method SumUsers(cells: seq<RawCell>) returns (total: nat)
    requires TotalUsers(cells) < U64_LIMIT
    ensures total == TotalUsers(cells)
  {
    total := 0;
    for i := 0 to |cells|
      invariant total + TotalUsers(cells[i..]) == TotalUsers(cells)
    {
      assert cells[i..][1..] == cells[i + 1..];
      total := AddU64(total, cells[i].users);
    }
  }

  method SumEvents(cells: seq<RawCell>) returns (total: nat)
    requires TotalEvents(cells) < U64_LIMIT
    ensures total == TotalEvents(cells)
  {
    total := 0;
    for i := 0 to |cells|
      invariant total + TotalEvents(cells[i..]) == TotalEvents(cells)
    {
      assert cells[i..][1..] == cells[i + 1..];
      total := AddU64(total, cells[i].events);
    }
  }

  lemma {:induction false} EligibleAppends(cells: seq<RawCell>, c: RawCell, k: nat)
    ensures Eligible(cells + [c], k) == Eligible(cells, k) + if c.users >= k then [c] else []
  {
    if |cells| > 0 {
      assert (cells + [c])[1..] == cells[1..] + [c];
      EligibleAppends(cells[1..], c, k);
    }
  }

  lemma {:induction false} BelowKAppends(cells: seq<RawCell>, c: RawCell, k: nat)
    ensures BelowK(cells + [c], k) == BelowK(cells, k) + if c.users < k then [c] else []
  {
    if |cells| > 0 {
      assert (cells + [c])[1..] == cells[1..] + [c];
      BelowKAppends(cells[1..], c, k);
    }
  }

  method SplitByK(children: seq<RawCell>, k: nat) returns (visible: seq<RawCell>, hidden: seq<RawCell>)
    ensures visible == Eligible(children, k) && hidden == BelowK(children, k)
  {
    hide Eligible, BelowK;
    visible, hidden := Eligible([], k), BelowK([], k);
    for i := 0 to |children|
      invariant visible == Eligible(children[..i], k) && hidden == BelowK(children[..i], k)
    {
      assert children[..i + 1] == children[..i] + [children[i]];
      EligibleAppends(children[..i], children[i], k);
      BelowKAppends(children[..i], children[i], k);
      if children[i].users < k {
        hidden := hidden + [children[i]];
      } else {
        visible := visible + [children[i]];
      }
    }
    assert children[..|children|] == children;
  }

  /** `suppress`. The pull loop runs at most once, and no sum exceeds the larger
      of the parent and the children, so `u64` suffices whenever those fit. */
  method Suppress(parentUsers: nat, children: seq<RawCell>, k: nat) returns (result: seq<ResultCell>, pulls: nat)
    requires Population(parentUsers, children) < U64_LIMIT && TotalEvents(children) < U64_LIMIT
    ensures result == Suppressed(parentUsers, children, k)
    ensures pulls <= 1
  {
    hide SortByUsers, Eligible, BelowK, ShowAll, TotalEvents;
    TotalsOfSplit(children, k);
    TotalsOfSort(Eligible(children, k));
    SortKeepsEligible(children, k);
    ReleaseConserves(parentUsers, children, k);
    var visible, hidden := SplitByK(children, k);
    var hiddenUsers := SumUsers(hidden);
    visible := SortByUsers(visible);
    ghost var sorted := visible;
    var visibleTotal := SumUsers(visible);
    var residual := SaturatingSub(parentUsers, AddU64(visibleTotal, hiddenUsers));
    var hiddenEffective := AddU64(hiddenUsers, residual);
    pulls := 0;
    while hiddenEffective > 0 && hiddenEffective < k && |visible| > 0
      invariant pulls == 0 ==> visible == sorted && hidden == BelowK(children, k)
      invariant pulls == 0 ==> hiddenEffective == hiddenUsers + residual
      invariant pulls > 0 ==> pulls == 1 && hiddenEffective >= k
      invariant pulls > 0 ==> ReleaseOf(parentUsers, children, k) == Release(visible, hidden, hiddenEffective)
      decreases |visible|
    {
      assert visible == [visible[0]] + visible[1..];
      var pulled := visible[0];
      visible := visible[1..];
      hiddenEffective := AddU64(hiddenEffective, pulled.users);
      hidden := hidden + [pulled];
      pulls := pulls + 1;
    }
    assert ReleaseOf(parentUsers, children, k) == Release(visible, hidden, hiddenEffective);
    result := ShowAll(visible);
    if |hidden| > 0 && hiddenEffective >= k {
      var events := SumEvents(hidden);
      result := result + [Other(events, hiddenEffective)];
    }
  }
}
