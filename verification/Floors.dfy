/** The k floor of exact answers: on the numbers released, and on the distinct
    people behind them. */
module Floors {
  import opened Collections
  import opened Windows
  import opened Hierarchy
  import opened Sketches
  import opened Protocol
  import opened Privacy
  import opened OtherFloor
  import opened Results
  import opened Queries
  import opened SketchQueries
  import opened Handlers

  /** A parent with no more users than its children adds nothing to the release. */
  lemma {:induction false} ResidualFree(parentUsers: nat, children: seq<RawCell>, k: nat)
    requires SaturatingSub(parentUsers, TotalUsers(children)) == 0
    ensures Suppressed(parentUsers, children, k) == Suppressed(TotalUsers(children), children, k)
  {
    hide SortByUsers, BelowK, Eligible, ShowAll;
    TotalsOfSplit(children, k);
    TotalsOfSort(Eligible(children, k));
  }

  /** With exact counts over reachable tables, every number released above the
      global level is at least `k`, the parent and the children obey conservation,
      and the residual is zero: only real children are hidden. */
  lemma {:induction false} ExactAnswersSafe(hash: Hasher, parts: seq<Part>, q: StatsQuery, k: nat,
                                            estimate: Estimate, resp: StatsResponse) returns (order: seq<CellKey>)
    requires ValidQuery(q) && q.level > LEVEL_GLOBAL && q.estimator.Exact? && PartsSound(hash, parts)
    requires IsAnswer(ViewAt(TablesOf(parts), q.window), q, k, estimate, resp)
    ensures forall i :: 0 <= i < |resp.cells| ==> resp.cells[i].users >= k
    ensures var view := ViewAt(TablesOf(parts), q.window);
            var parent, children := FetchCell(view, ParentKey(q)), FetchAll(view, order);
            && Enumerates(order, ChildKeys(view, ParentKey(q)))
            && Conserved(parent, children)
            && resp.cells == Suppressed(parent.users, children, k) == Suppressed(TotalUsers(children), children, k)
  {
    hide Suppressed, FetchCell, ChildKeys, Enumerates, PartsSound, Canonical, IsAnswer, CellsOf, FetchAll;
    var view, parent := ViewAt(TablesOf(parts), q.window), ParentKey(q);
    order := AnswerIs(hash, parts, q, k, estimate, resp);
    SameExactCells(view, order, estimate);
    ChildrenConserve(hash, parts, q.window, parent, order);
    SuppressionSafe(FetchCell(view, parent).users, FetchAll(view, order), k);
    ResidualFree(FetchCell(view, parent).users, FetchAll(view, order), k);
  }

  /** The people a cell of the given level counts. */
  function PeopleIn(parts: seq<Part>, w: Time, level: int, c: RawCell): set<User> {
    EveryoneOf(parts, w, CellKey(level, c.family, c.wiki, c.namespace))
  }

  function PeopleBehind(parts: seq<Part>, w: Time, level: int, cells: seq<RawCell>): (people: seq<set<User>>)
    ensures |people| == |cells|
    ensures forall i :: 0 <= i < |cells| ==> people[i] == PeopleIn(parts, w, level, cells[i])
  {
    if |cells| == 0 then [] else [PeopleIn(parts, w, level, cells[0])] + PeopleBehind(parts, w, level, cells[1..])
  }

  lemma {:induction false} UnionMember<T>(people: seq<set<T>>, u: T)
    ensures u in UnionOf(people) <==> exists i :: 0 <= i < |people| && u in people[i]
  {
    if |people| > 0 {
      UnionMember(people[1..], u);
      assert forall i :: 1 <= i < |people| ==> people[i] == people[1..][i - 1];
      if u in UnionOf(people[1..]) {
        var i :| 0 <= i < |people[1..]| && u in people[1..][i];
        assert u in people[i + 1];
      }
    }
  }

  /** Fetched children of a cell carry their own keys and count their own people. */
  lemma {:induction false} FetchedCountsPeople(hash: Hasher, parts: seq<Part>, w: Time, parent: CellKey,
                                               order: seq<CellKey>, c: RawCell)
    requires PartsSound(hash, parts) && Routed(parts)
    requires Enumerates(order, ChildKeys(ViewAt(TablesOf(parts), w), parent))
    requires c in FetchAll(ViewAt(TablesOf(parts), w), order)
    ensures |PeopleIn(parts, w, parent.level + 1, c)| == c.users
    ensures CellKey(parent.level + 1, c.family, c.wiki, c.namespace) in order
  {
    hide PartsSound, Routed, FetchAll, FetchCell, ChildKeys, EveryoneOf;
    var view := ViewAt(TablesOf(parts), w);
    var i :| 0 <= i < |order| && FetchAll(view, order)[i] == c;
    FetchedKey(view, parent, order[i]);
    DistinctUsersExact(hash, parts, w, order[i]);
  }

  lemma {:induction false} FetchedKey(view: seq<CellRows>, parent: CellKey, key: CellKey)
    requires key in ChildKeys(view, parent)
    ensures var c := FetchCell(view, key); CellKey(parent.level + 1, c.family, c.wiki, c.namespace) == key
  {
    hide ColumnSum;
  }

  /** The real people, by cell, explain every count `suppress` is given. */
  lemma {:induction false} PeopleExplain(hash: Hasher, parts: seq<Part>, w: Time, parent: CellKey, order: seq<CellKey>,
                                         k: nat)
    requires PartsSound(hash, parts) && Routed(parts) && parent.level < LEVEL_NAMESPACE
    requires Enumerates(order, ChildKeys(ViewAt(TablesOf(parts), w), parent))
    ensures var view, level := ViewAt(TablesOf(parts), w), parent.level + 1;
            var r := ReleaseOf(FetchCell(view, parent).users, FetchAll(view, order), k);
            Explains(FetchCell(view, parent).users, r, PeopleBehind(parts, w, level, r.visible),
                     PeopleBehind(parts, w, level, r.hidden))
  {
    hide PartsSound, Routed, FetchAll, FetchCell, ReleaseOf, ChildKeys, PeopleBehind, UnionOf, PeopleIn, EveryoneOf;
    var view, level := ViewAt(TablesOf(parts), w), parent.level + 1;
    var children := FetchAll(view, order);
    var r := ReleaseOf(FetchCell(view, parent).users, children, k);
    var shown, hidden := PeopleBehind(parts, w, level, r.visible), PeopleBehind(parts, w, level, r.hidden);
    forall c | c in r.visible || c in r.hidden
      ensures |PeopleIn(parts, w, level, c)| == c.users
    {
      EveryChildIsSomewhere(FetchCell(view, parent).users, children, k, c);
      FetchedCountsPeople(hash, parts, w, parent, order, c);
    }
    assert Describes(r.visible, shown) by { DescribedAll(parts, w, level, r.visible); }
    assert Describes(r.hidden, hidden) by { DescribedAll(parts, w, level, r.hidden); }
    ReleasedIsEveryone(hash, parts, w, parent, order, k);
    DistinctUsersExact(hash, parts, w, parent);
  }

  /** The people of the visible and the hidden cells are the parent's people. */
  lemma {:induction false} ReleasedIsEveryone(hash: Hasher, parts: seq<Part>, w: Time, parent: CellKey,
                                              order: seq<CellKey>, k: nat)
    requires PartsSound(hash, parts) && Routed(parts) && parent.level < LEVEL_NAMESPACE
    requires Enumerates(order, ChildKeys(ViewAt(TablesOf(parts), w), parent))
    ensures var view, level := ViewAt(TablesOf(parts), w), parent.level + 1;
            var r := ReleaseOf(FetchCell(view, parent).users, FetchAll(view, order), k);
            UnionOf(PeopleBehind(parts, w, level, r.visible)) + UnionOf(PeopleBehind(parts, w, level, r.hidden))
            == EveryoneOf(parts, w, parent)
  {
    hide PartsSound, Routed, FetchAll, FetchCell, ReleaseOf, ChildKeys, PeopleBehind, UnionOf, EveryoneOf;
    var view, level := ViewAt(TablesOf(parts), w), parent.level + 1;
    var r := ReleaseOf(FetchCell(view, parent).users, FetchAll(view, order), k);
    var shown, hidden := PeopleBehind(parts, w, level, r.visible), PeopleBehind(parts, w, level, r.hidden);
    forall u
      ensures u in UnionOf(shown) + UnionOf(hidden) <==> u in EveryoneOf(parts, w, parent)
    {
      UnionIsEveryone(hash, parts, w, parent, order, k, u);
    }
  }

  lemma {:induction false} DescribedAll(parts: seq<Part>, w: Time, level: int, cells: seq<RawCell>)
    requires forall c :: c in cells ==> |PeopleIn(parts, w, level, c)| == c.users
    ensures Describes(cells, PeopleBehind(parts, w, level, cells))
  {
    hide PeopleIn, PeopleBehind;
    forall i | 0 <= i < |cells|
      ensures |PeopleBehind(parts, w, level, cells)[i]| == cells[i].users
    {
      assert cells[i] in cells;
    }
  }

  lemma {:induction false} BehindMember(parts: seq<Part>, w: Time, level: int, cells: seq<RawCell>, u: User)
    ensures u in UnionOf(PeopleBehind(parts, w, level, cells)) <==>
            exists c :: c in cells && u in PeopleIn(parts, w, level, c)
  {
    hide PeopleIn, PeopleBehind, UnionOf;
    var people := PeopleBehind(parts, w, level, cells);
    UnionMember(people, u);
    if i :| 0 <= i < |people| && u in people[i] {
      assert cells[i] in cells;
    }
    if c :| c in cells && u in PeopleIn(parts, w, level, c) {
      var i :| 0 <= i < |cells| && cells[i] == c;
      assert u in people[i];
    }
  }

  lemma {:induction false} UnionIsEveryone(hash: Hasher, parts: seq<Part>, w: Time, parent: CellKey,
                                           order: seq<CellKey>, k: nat, u: User)
    requires PartsSound(hash, parts) && Routed(parts) && parent.level < LEVEL_NAMESPACE
    requires Enumerates(order, ChildKeys(ViewAt(TablesOf(parts), w), parent))
    ensures var view, level := ViewAt(TablesOf(parts), w), parent.level + 1;
            var r := ReleaseOf(FetchCell(view, parent).users, FetchAll(view, order), k);
            u in UnionOf(PeopleBehind(parts, w, level, r.visible)) + UnionOf(PeopleBehind(parts, w, level, r.hidden))
            <==> u in EveryoneOf(parts, w, parent)
  {
    hide PartsSound, Routed, FetchAll, FetchCell, ChildKeys, ReleaseOf, PeopleBehind, UnionOf, EveryoneOf;
    hide PeopleIn;
    var view, level := ViewAt(TablesOf(parts), w), parent.level + 1;
    var users, children := FetchCell(view, parent).users, FetchAll(view, order);
    var r := ReleaseOf(users, children, k);
    BehindMember(parts, w, level, r.visible, u);
    BehindMember(parts, w, level, r.hidden, u);
    BehindMember(parts, w, level, children, u);
    forall c
      ensures c in children <==> c in r.visible || c in r.hidden
    {
      EveryChildIsSomewhere(users, children, k, c);
    }
    ChildrenHoldEveryone(hash, parts, w, parent, order, u);
  }

  lemma {:induction false} ChildrenHoldEveryone(hash: Hasher, parts: seq<Part>, w: Time, parent: CellKey,
                                                order: seq<CellKey>, u: User)
    requires PartsSound(hash, parts) && Routed(parts) && parent.level < LEVEL_NAMESPACE
    requires Enumerates(order, ChildKeys(ViewAt(TablesOf(parts), w), parent))
    ensures u in EveryoneOf(parts, w, parent) <==>
            exists c :: c in FetchAll(ViewAt(TablesOf(parts), w), order) && u in PeopleIn(parts, w, parent.level + 1, c)
  {
    hide PartsSound, Routed, FetchAll, FetchCell, ChildKeys, EveryoneOf;
    var view, level := ViewAt(TablesOf(parts), w), parent.level + 1;
    var children := FetchAll(view, order);
    EveryoneOfChildren(hash, parts, w, parent, u);
    if c :| c in children && u in PeopleIn(parts, w, level, c) {
      FetchedCountsPeople(hash, parts, w, parent, order, c);
      assert CellKey(level, c.family, c.wiki, c.namespace) in ChildKeys(view, parent);
    }
    if key :| key in ChildKeys(view, parent) && u in EveryoneOf(parts, w, key) {
      var i :| 0 <= i < |order| && order[i] == key;
      FetchedKey(view, parent, key);
      assert children[i] in children && u in PeopleIn(parts, w, level, children[i]);
    }
  }

  /** The floor on people. With users routed to partitions, an exact answer above
      the global level shows for each visible cell the number of its distinct
      people, at least `k`; and at least `k` distinct people stand behind `Other`
      whenever a child was pulled into it or the parent has `k` more people than
      the eligible children together. `OtherFloorIff` says no weaker condition
      on the counts will do. `order` lists the parent's stored children. */
  lemma {:induction false} ExactAnswerPeople(hash: Hasher, parts: seq<Part>, q: StatsQuery, k: nat,
                                             estimate: Estimate, resp: StatsResponse)
      returns (order: seq<CellKey>, children: seq<RawCell>, hidden: seq<RawCell>)
    requires ValidQuery(q) && q.level > LEVEL_GLOBAL && q.estimator.Exact? && PartsSound(hash, parts) && Routed(parts)
    requires IsAnswer(ViewAt(TablesOf(parts), q.window), q, k, estimate, resp)
    ensures var view := ViewAt(TablesOf(parts), q.window);
            Enumerates(order, ChildKeys(view, ParentKey(q))) && children == FetchAll(view, order)
    ensures var everyone := |EveryoneOf(parts, q.window, ParentKey(q))|;
            && resp.cells == Suppressed(everyone, children, k)
            && hidden == ReleaseOf(everyone, children, k).hidden
            && (Pulls(everyone, children, k) || everyone >= TotalUsers(Eligible(children, k)) + k ==>
                  |UnionOf(PeopleBehind(parts, q.window, q.level, hidden))| >= k)
    ensures forall i :: 0 <= i < |resp.cells| && resp.cells[i].Visible? ==>
              var c := resp.cells[i];
              c.users == |EveryoneOf(parts, q.window, CellKey(q.level, c.family, c.wiki, c.namespace))| >= k
  {
    hide Suppressed, FetchCell, ChildKeys, Enumerates, PartsSound, Canonical, IsAnswer, FetchAll, ReleaseOf, Explains;
    hide Pulls, Eligible, UnionOf, PeopleBehind, EveryoneOf;
    var view, parent := ViewAt(TablesOf(parts), q.window), ParentKey(q);
    order := ExactAnswersSafe(hash, parts, q, k, estimate, resp);
    children := FetchAll(view, order);
    DistinctUsersExact(hash, parts, q.window, parent);
    var everyone := |EveryoneOf(parts, q.window, parent)|;
    var r := ReleaseOf(everyone, children, k);
    hidden := r.hidden;
    ParentLevel(q);
    PeopleExplain(hash, parts, q.window, parent, order, k);
    if Pulls(everyone, children, k) || everyone >= TotalUsers(Eligible(children, k)) + k {
      OtherDescribesK(everyone, children, k, PeopleBehind(parts, q.window, q.level, r.visible),
                      PeopleBehind(parts, q.window, q.level, hidden));
    }
    forall i | 0 <= i < |resp.cells| && resp.cells[i].Visible?
      ensures var c := resp.cells[i];
              c.users == |EveryoneOf(parts, q.window, CellKey(q.level, c.family, c.wiki, c.namespace))| >= k
    {
      var c := VisibleIsChild(everyone, children, k, i);
      FetchedCountsPeople(hash, parts, q.window, parent, order, c);
    }
  }

  /** An exact answer above the global level, told from the logs alone: the
      suppression of the parent's stored children, each once, with its names, the
      number of its events and of its distinct people. */
  lemma {:induction false} ExactAnswerIs(hash: Hasher, parts: seq<Part>, q: StatsQuery, k: nat, estimate: Estimate,
                                         resp: StatsResponse)
      returns (order: seq<CellKey>, children: seq<RawCell>, show: seq<bool>)
    requires ValidQuery(q) && q.level > LEVEL_GLOBAL && q.estimator.Exact? && PartsSound(hash, parts) && Routed(parts)
    requires IsAnswer(ViewAt(TablesOf(parts), q.window), q, k, estimate, resp)
    ensures Enumerates(order, ChildKeys(ViewAt(TablesOf(parts), q.window), ParentKey(q)))
    ensures |children| == |order| == |show|
    ensures forall i :: 0 <= i < |order| ==> children[i] == CountedCell(parts, q.window, order[i])
    ensures |EveryoneOf(parts, q.window, ParentKey(q))| <= TotalUsers(children)
    ensures Suppresses(|EveryoneOf(parts, q.window, ParentKey(q))|, children, k, show, resp.cells)
  {
    hide Suppressed, FetchCell, ChildKeys, Enumerates, PartsSound, Canonical, IsAnswer, FetchAll, ReleaseOf;
    hide EveryoneOf, TotalUsers, TotalEvents, Routed, EntriesTotal, Suppresses;
    var view, parent := ViewAt(TablesOf(parts), q.window), ParentKey(q);
    order := ExactAnswersSafe(hash, parts, q, k, estimate, resp);
    children := FetchAll(view, order);
    DistinctUsersExact(hash, parts, q.window, parent);
    forall i | 0 <= i < |order|
      ensures children[i] == CountedCell(parts, q.window, order[i])
    {
      FetchCellCounts(hash, parts, q.window, order[i]);
    }
    show := ResultSuppresses(|EveryoneOf(parts, q.window, parent)|, children, k);
  }

  /** The same by sketch, where every resume turned sketches on or every one left
      them off: the parent's users are the estimate for all its people, or nobody
      without rows or sketches, and each child's likewise. */
  lemma {:induction false} SketchAnswerIs(hash: Hasher, parts: seq<Part>, runs: seq<seq<Action>>, on: bool,
                                          q: StatsQuery, k: nat, estimate: Estimate, resp: StatsResponse)
      returns (order: seq<CellKey>, cell: Option<RawCell>, children: seq<RawCell>, show: seq<bool>)
    requires ValidQuery(q) && q.level > LEVEL_GLOBAL && q.estimator.Hll? && AllRanWith(hash, parts, runs, on)
    requires IsAnswer(ViewAt(TablesOf(parts), q.window), q, k, estimate, resp)
    ensures Enumerates(order, ChildKeys(ViewAt(TablesOf(parts), q.window), ParentKey(q)))
    ensures |children| == |order| == |show|
    ensures cell.Some? <==> exists p :: 0 <= p < |parts| && ParentKey(q) in RowsAt(parts[p].state.table, q.window)
    ensures cell.Some? ==> CountsPeople(hash, parts, q.window, ParentKey(q), on, estimate, cell.value)
    ensures forall i :: 0 <= i < |order| ==> CountsPeople(hash, parts, q.window, order[i], on, estimate, children[i])
    ensures Suppresses(if cell.Some? then cell.value.users else 0, children, k, show, resp.cells)
  {
    hide AllRanWith, PartsSound, Suppressed, ReadsCell, ReadsChildren, Enumerates, ChildKeys, Canonical, CountsPeople;
    hide RowsAt, Suppresses;
    var view, parent := ViewAt(TablesOf(parts), q.window), ParentKey(q);
    cell, children :| ReadsCell(view, parent, Hll, estimate, cell)
                      && ReadsChildren(view, parent, Hll, estimate, children)
                      && resp.cells == Suppressed(UsersOrZero(cell), children, k);
    order := SketchQueriesCount(hash, parts, runs, on, q.window, parent, estimate, cell, children);
    show := ResultSuppresses(UsersOrZero(cell), children, k);
  }

  /** What subtraction tells about people. Subtracting the visible cells of an
      exact answer from the parent's number of people gives at most the number of
      the parent's people outside every visible cell, and exactly that number if
      one cell is visible. The difference is unsafe exactly under the condition
      of `ParentDifferenceIff` on the parent's stored children. */
  lemma {:induction false} ParentMinusShown(hash: Hasher, parts: seq<Part>, q: StatsQuery, k: nat, estimate: Estimate,
                                            resp: StatsResponse)
      returns (order: seq<CellKey>, children: seq<RawCell>, visible: seq<RawCell>)
    requires ValidQuery(q) && q.level > LEVEL_GLOBAL && q.estimator.Exact? && PartsSound(hash, parts) && Routed(parts)
    requires IsAnswer(ViewAt(TablesOf(parts), q.window), q, k, estimate, resp)
    ensures var view := ViewAt(TablesOf(parts), q.window);
            Enumerates(order, ChildKeys(view, ParentKey(q))) && children == FetchAll(view, order)
    ensures var everyone := EveryoneOf(parts, q.window, ParentKey(q));
            var outside := everyone - UnionOf(PeopleBehind(parts, q.window, q.level, visible));
            && resp.cells == Suppressed(|everyone|, children, k)
            && visible == ReleaseOf(|everyone|, children, k).visible
            && |everyone| - TotalUsers(visible) <= |outside|
            && (|visible| == 1 ==> |everyone| - TotalUsers(visible) == |outside|)
            && var left := TotalUsers(Eligible(children, k)) - PulledUsers(|everyone|, children, k);
            DifferenceSafe(|everyone|, visible, k) <==>
            !(|Eligible(children, k)| > PulledCells(|everyone|, children, k) && left < |everyone| < left + k)
  {
    hide Suppressed, FetchCell, ChildKeys, Enumerates, PartsSound, Canonical, IsAnswer, FetchAll, ReleaseOf;
    hide PulledUsers, PulledCells, Eligible, UnionOf, PeopleBehind, EveryoneOf, DifferenceSafe, TotalUsers;
    var hidden;
    order, children, hidden := ExactAnswerPeople(hash, parts, q, k, estimate, resp);
    var parent := ParentKey(q);
    var everyone := EveryoneOf(parts, q.window, parent);
    var r := ReleaseOf(|everyone|, children, k);
    visible := r.visible;
    ParentLevel(q);
    DistinctUsersExact(hash, parts, q.window, parent);
    PeopleExplain(hash, parts, q.window, parent, order, k);
    ReleasedIsEveryone(hash, parts, q.window, parent, order, k);
    DifferenceCountsPeople(|everyone|, r, PeopleBehind(parts, q.window, q.level, visible),
                           PeopleBehind(parts, q.window, q.level, hidden));
    ParentDifferenceIff(|everyone|, children, k);
  }

  lemma {:induction false} ParentLevel(q: StatsQuery)
    requires ValidQuery(q) && q.level > LEVEL_GLOBAL
    ensures ParentKey(q).level + 1 == q.level
  {
  }

  lemma {:induction false} VisibleIsChild(parentUsers: nat, children: seq<RawCell>, k: nat, i: nat)
      returns (c: RawCell)
    requires i < |Suppressed(parentUsers, children, k)| && Suppressed(parentUsers, children, k)[i].Visible?
    ensures c in children && Suppressed(parentUsers, children, k)[i] == Show(c)
  {
    hide ReleaseOf, TotalEvents, ShowAll;
    var r := ReleaseOf(parentUsers, children, k);
    c := r.visible[i];
    assert c in r.visible;
    EveryChildIsSomewhere(parentUsers, children, k, c);
  }

  /** At the global level the code releases the one cell whatever its size, as
      `Other` if it is below `k`: the floor holds if and only if at least `k`
      distinct people were counted. */
  lemma {:induction false} GlobalFloorIff(hash: Hasher, parts: seq<Part>, q: StatsQuery, k: nat, estimate: Estimate,
                                          resp: StatsResponse)
    requires ValidQuery(q) && q.level == LEVEL_GLOBAL && q.estimator.Exact? && PartsSound(hash, parts) && Routed(parts)
    requires IsAnswer(ViewAt(TablesOf(parts), q.window), q, k, estimate, resp)
    ensures |resp.cells| == 1 && resp.cells[0].users == |EveryoneOf(parts, q.window, GLOBAL)|
    ensures (forall i :: 0 <= i < |resp.cells| ==> resp.cells[i].users >= k) <==>
            |EveryoneOf(parts, q.window, GLOBAL)| >= k
  {
    hide PartsSound, Routed, FetchCell, EveryoneOf;
    DistinctUsersExact(hash, parts, q.window, GLOBAL);
    assert resp.cells[0].users >= k <==> |EveryoneOf(parts, q.window, GLOBAL)| >= k;
  }

  /** The exact global answer is one cell with the number of events counted and
      of distinct people, visible from `k` people on and `Other` below. */
  lemma {:induction false} GlobalAnswerIs(hash: Hasher, parts: seq<Part>, q: StatsQuery, k: nat, estimate: Estimate,
                                          resp: StatsResponse)
    requires ValidQuery(q) && q.level == LEVEL_GLOBAL && q.estimator.Exact? && PartsSound(hash, parts) && Routed(parts)
    requires IsAnswer(ViewAt(TablesOf(parts), q.window), q, k, estimate, resp)
    ensures resp.windowStart == q.window && resp.level == 0
    ensures var people, events := |EveryoneOf(parts, q.window, GLOBAL)|, EntriesTotal(parts, q.window, GLOBAL);
            resp.cells == [if people >= k then Visible("*", "*", -1, events, people) else Other(events, people)]
  {
    hide PartsSound, Routed, EveryoneOf, EntriesTotal, ColumnSum;
    DistinctUsersExact(hash, parts, q.window, GLOBAL);
    CountedEventsExact(hash, parts, q.window, GLOBAL);
  }

  /** The global answer by sketch: nothing without rows, and otherwise one cell
      with the events counted and the estimate for everyone, or nobody where
      sketches were off. */
  lemma {:induction false} GlobalSketchAnswerIs(hash: Hasher, parts: seq<Part>, runs: seq<seq<Action>>, on: bool,
                                                q: StatsQuery, k: nat, estimate: Estimate, resp: StatsResponse)
    requires ValidQuery(q) && q.level == LEVEL_GLOBAL && q.estimator.Hll? && AllRanWith(hash, parts, runs, on)
    requires IsAnswer(ViewAt(TablesOf(parts), q.window), q, k, estimate, resp)
    ensures if forall p :: 0 <= p < |parts| ==> GLOBAL !in RowsAt(parts[p].state.table, q.window) then resp.cells == []
            else exists c :: && CountsPeople(hash, parts, q.window, GLOBAL, on, estimate, c)
                             && resp.cells == [if c.users >= k then Visible("*", "*", -1, c.events, c.users)
                                               else Other(c.events, c.users)]
  {
    hide AllRanWith, PartsSound, ReadsCell, CountsPeople, RowsAt, SketchCell, ColumnSum;
    var view := ViewAt(TablesOf(parts), q.window);
    RanIsSound(hash, parts, runs, on);
    var cell :| ReadsCell(view, GLOBAL, Hll, estimate, cell) && resp.cells == GlobalCells(cell, k);
    CellRead(hash, parts, q.window, GLOBAL, Hll, estimate, cell);
    assert forall p: nat :: p in RowsFor(view, GLOBAL) <==>
                            p < |parts| && GLOBAL in RowsAt(parts[p].state.table, q.window);
    if cell.Some? {
      assert Pick(RowsFor(view, GLOBAL)) < |parts|;
      SketchCellCounts(hash, parts, runs, on, q.window, GLOBAL, estimate);
      CountsNames(hash, parts, q.window, GLOBAL, on, estimate, cell.value);
    }
  }

  lemma {:induction false} CountsNames(hash: Hasher, parts: seq<Part>, w: Time, c: CellKey, on: bool,
                                       estimate: Estimate, cell: RawCell)
    requires CountsPeople(hash, parts, w, c, on, estimate, cell)
    ensures cell.family == c.family && cell.wiki == c.wiki && cell.namespace == c.namespace
  {
  }
}
