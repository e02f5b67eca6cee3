/** What `suppress` returns, said of its cells and its arguments alone:
    crates/query-api/src/privacy.rs. */
module Results {
  import opened Collections
  import opened Privacy
  import opened OtherFloor
  import opened Ties

  /** The visible cells of a result, in order. */
  function Shown(cells: seq<ResultCell>): seq<RawCell> {
    if |cells| == 0 then []
    else
      (match cells[0]
       case Visible(family, wiki, namespace, events, users) => [RawCell(family, wiki, namespace, events, users)]
       case Other(_, _) => [])
      + Shown(cells[1..])
  }

  lemma {:induction false} ShownOfAll(visible: seq<RawCell>, tail: seq<ResultCell>)
    requires |tail| <= 1 && forall i :: 0 <= i < |tail| ==> tail[i].Other?
    ensures Shown(ShowAll(visible) + tail) == visible
  {
    var cells := ShowAll(visible) + tail;
    if |visible| > 0 {
      assert ShowAll(visible) == [Show(visible[0])] + ShowAll(visible[1..]);
      assert cells[1..] == ShowAll(visible[1..]) + tail;
      ShownOfAll(visible[1..], tail);
    } else {
      assert cells == tail;
    }
  }

  lemma {:induction false} ShownIsVisible(parentUsers: nat, children: seq<RawCell>, k: nat)
    ensures Shown(Suppressed(parentUsers, children, k)) == ReleaseOf(parentUsers, children, k).visible
  {
    hide ReleaseOf, Shown, ShowAll;
    var r := ReleaseOf(parentUsers, children, k);
    ShownOfAll(r.visible, if ReleasesOther(r, k) then [Other(TotalEvents(r.hidden), r.hiddenUsers)] else []);
  }

  /** The visible cells are children as they came, each at least `k`, from the
      fewest users to the most, and what they leave of the larger of the parent
      and the children's sum is nobody or at least `k`, unless none is visible. */
  lemma {:induction false} ResultIsAChoice(parentUsers: nat, children: seq<RawCell>, k: nat) returns (show: seq<bool>)
    ensures |show| == |children|
    ensures var shown := Shown(Suppressed(parentUsers, children, k));
            && Permuted(shown, Chosen(children, show)) && Ascending(shown)
            && (shown != [] ==> Admissible(parentUsers, children, k, show))
  {
    hide ReleaseOf, Suppressed, SortByUsers, Chosen, Copies, Admissible;
    ShownIsVisible(parentUsers, children, k);
    show := ReleaseIsAChoice(parentUsers, children, k);
    SortAscending(Chosen(children, show));
    forall c
      ensures Copies(SortByUsers(Chosen(children, show)), c) == Copies(Chosen(children, show), c)
    {
      SortCopies(Chosen(children, show), c);
    }
  }

  /** No admissible choice of children has more cells, or more users, than the
      result shows. */
  lemma {:induction false} ResultIsOptimal(parentUsers: nat, children: seq<RawCell>, k: nat, show: seq<bool>)
    requires Admissible(parentUsers, children, k, show)
    ensures var shown := Shown(Suppressed(parentUsers, children, k));
            |Chosen(children, show)| <= |shown| && TotalUsers(Chosen(children, show)) <= TotalUsers(shown)
  {
    hide ReleaseOf, Suppressed, Chosen, Admissible;
    ShownIsVisible(parentUsers, children, k);
    SuppressionOptimal(parentUsers, children, k, show);
  }

  lemma {:induction false} HiddenIsTheRest(parentUsers: nat, children: seq<RawCell>, k: nat)
    ensures var r := ReleaseOf(parentUsers, children, k); |r.visible| + |r.hidden| == |children|
  {
    hide SortByUsers, Eligible, BelowK;
    HiddenCount(children, k);
  }

  /** `Other` is released if and only if a child is not shown and the larger of
      the parent and the children's sum exceeds what is shown by at least `k`. It
      is then the last cell and the only one of its kind, and it carries exactly
      the rest: of the users, and of the children's events. */
  lemma {:induction false} OtherReleasedIff(parentUsers: nat, children: seq<RawCell>, k: nat)
    ensures var cells := Suppressed(parentUsers, children, k);
            var shown, most := Shown(cells), Max(parentUsers, TotalUsers(children));
            && (HasOther(cells) <==>
                |shown| < |children| && most >= TotalUsers(shown) + k)
            && (forall i :: 0 <= i < |cells| && cells[i].Other? ==>
                  && i == |cells| - 1
                  && cells[i].users == most - TotalUsers(shown)
                  && cells[i].events == TotalEvents(children) - TotalEvents(shown))
            && |cells| == |shown| + if |shown| < |children| && most >= TotalUsers(shown) + k then 1 else 0
  {
    hide ReleaseOf, Shown, ShowAll, TotalUsers, TotalEvents;
    var cells, r := Suppressed(parentUsers, children, k), ReleaseOf(parentUsers, children, k);
    ShownIsVisible(parentUsers, children, k);
    ReleaseConserves(parentUsers, children, k);
    HiddenIsTheRest(parentUsers, children, k);
    if ReleasesOther(r, k) {
      assert cells[|r.visible|].Other?;
    }
  }

  /** What a result says of its arguments, with no word about how it is made. The
      visible cells are the children `show` chooses, in ascending order, an
      admissible choice unless empty, and no admissible choice has more cells or
      more users; `Other` is there, last, if and only if a child is missing and
      at least `k` of the users are, and carries the rest. */
  ghost predicate Suppresses(parentUsers: nat, children: seq<RawCell>, k: nat, show: seq<bool>, cells: seq<ResultCell>)
    requires |show| == |children|
  {
    var shown, most := Shown(cells), Max(parentUsers, TotalUsers(children));
    && Permuted(shown, Chosen(children, show)) && Ascending(shown)
    && (shown != [] ==> Admissible(parentUsers, children, k, show))
    && (forall other :: Admissible(parentUsers, children, k, other) ==>
          |Chosen(children, other)| <= |shown| && TotalUsers(Chosen(children, other)) <= TotalUsers(shown))
    && (HasOther(cells) <==> |shown| < |children| && most >= TotalUsers(shown) + k)
    && (forall i :: 0 <= i < |cells| && cells[i].Other? ==>
          && i == |cells| - 1
          && cells[i].users == most - TotalUsers(shown)
          && cells[i].events == TotalEvents(children) - TotalEvents(shown))
  }

  lemma {:induction false} ResultSuppresses(parentUsers: nat, children: seq<RawCell>, k: nat) returns (show: seq<bool>)
    ensures |show| == |children|
    ensures Suppresses(parentUsers, children, k, show, Suppressed(parentUsers, children, k))
  {
    hide Suppressed, Shown, Permuted, Chosen, Ascending, TotalUsers, TotalEvents;
    var cells := Suppressed(parentUsers, children, k);
    show := ResultIsAChoice(parentUsers, children, k);
    OtherReleasedIff(parentUsers, children, k);
    forall other | Admissible(parentUsers, children, k, other)
      ensures |Chosen(children, other)| <= |Shown(cells)|
      ensures TotalUsers(Chosen(children, other)) <= TotalUsers(Shown(cells))
    {
      ResultIsOptimal(parentUsers, children, k, other);
    }
  }

  // ---------- Ties ----------

  /** The cells with exactly `v` users, in order. */
  function WithUsers(cells: seq<RawCell>, v: nat): seq<RawCell> {
    if |cells| == 0 then [] else (if cells[0].users == v then [cells[0]] else []) + WithUsers(cells[1..], v)
  }

  lemma {:induction false} NoneWithUsers(cells: seq<RawCell>, v: nat)
    requires forall i :: 0 <= i < |cells| ==> cells[i].users != v
    ensures WithUsers(cells, v) == []
  {
    if |cells| > 0 {
      NoneWithUsers(cells[1..], v);
    }
  }

  lemma {:induction false} InsertIsStable(cell: RawCell, sorted: seq<RawCell>, v: nat)
    requires Ascending(sorted)
    ensures WithUsers(InsertByUsers(cell, sorted), v) ==
            (if cell.users == v then [cell] else []) + WithUsers(sorted, v)
  {
    if |sorted| == 0 || cell.users <= sorted[0].users {
      assert InsertByUsers(cell, sorted)[1..] == sorted;
    } else {
      InsertIsStable(cell, sorted[1..], v);
      assert InsertByUsers(cell, sorted)[1..] == InsertByUsers(cell, sorted[1..]);
    }
  }

  /** Cells with equal counts keep their order: of children tied at the least
      eligible count, the one the database returned first is pulled. */
  lemma {:induction false} SortIsStable(cells: seq<RawCell>, v: nat)
    ensures WithUsers(SortByUsers(cells), v) == WithUsers(cells, v)
  {
    if |cells| > 0 {
      SortIsStable(cells[1..], v);
      SortAscending(cells[1..]);
      InsertIsStable(cells[0], SortByUsers(cells[1..]), v);
    }
  }
}
