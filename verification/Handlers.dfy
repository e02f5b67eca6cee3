/** The query endpoints: the completeness gate, the latest window and the answer.
    crates/query-api/src/handlers.rs and db.rs. */
module Handlers {
  import opened Collections
  import opened Windows
  import opened Hierarchy
  import opened Sketches
  import opened Storage
  import opened Protocol
  import opened Privacy
  import opened OtherFloor
  import opened Ties
  import opened Queries
  import opened SketchQueries

  datatype Estimator = Exact | Hll

  datatype StatsQuery = StatsQuery(window: Time, level: int, family: Option<string>, wiki: Option<string>,
                                   estimator: Estimator)

  datatype StatsResponse = StatsResponse(windowStart: Time, level: int, cells: seq<ResultCell>)

  datatype Reply = Ok(response: StatsResponse) | BadRequest | Conflict

  // ---------- The gate ----------

  /** `min(flushed_watermark)`: over the partitions that have a progress row. */
  function MinFlushed(tables: seq<Table>): Option<Time> {
    if |tables| == 0 then None
    else
      var rest := MinFlushed(tables[1..]);
      match tables[0].progress
      case None => rest
      case Some(p) => if rest.None? then Some(p.flushed) else Some(Min(p.flushed, rest.value))
  }

  predicate Complete(tables: seq<Table>, w: Time) {
    MinFlushed(tables).Some? && WindowEnd(w) <= MinFlushed(tables).value
  }

  ghost predicate AllHaveProgress(tables: seq<Table>) {
    forall p :: 0 <= p < |tables| ==> tables[p].progress.Some?
  }

  ghost predicate AllCovered(tables: seq<Table>, w: Time) {
    forall p :: 0 <= p < |tables| ==> Covered(tables[p], WindowEnd(w))
  }

  /** The gate passes exactly when some partition has progress and every
      partition that has progress has flushed the window. */
  lemma {:induction false} GateMeans(tables: seq<Table>, w: Time)
    ensures Complete(tables, w) <==>
            && (exists p :: 0 <= p < |tables| && tables[p].progress.Some?)
            && (forall p :: 0 <= p < |tables| && tables[p].progress.Some? ==> Covered(tables[p], WindowEnd(w)))
  {
    if |tables| > 0 {
      GateMeans(tables[1..], w);
      assert forall p :: 1 <= p < |tables| ==> tables[p] == tables[1..][p - 1];
      assert MinFlushed(tables[1..]).None? <==> forall p :: 1 <= p < |tables| ==> tables[p].progress.None? by {
        MinFlushedSome(tables[1..]);
      }
      if Complete(tables[1..], w) {
        var p :| 0 <= p < |tables[1..]| && tables[1..][p].progress.Some?;
        assert tables[p + 1].progress.Some?;
      }
    }
  }

  lemma {:induction false} MinFlushedSome(tables: seq<Table>)
    ensures MinFlushed(tables).Some? <==> exists p :: 0 <= p < |tables| && tables[p].progress.Some?
  {
    if |tables| > 0 {
      MinFlushedSome(tables[1..]);
      assert forall p :: 1 <= p < |tables| ==> tables[p] == tables[1..][p - 1];
      if MinFlushed(tables[1..]).Some? {
        var p :| 0 <= p < |tables[1..]| && tables[1..][p].progress.Some?;
        assert tables[p + 1].progress.Some?;
      }
    }
  }

  lemma {:induction false} GateCovers(tables: seq<Table>, w: Time)
    requires AllHaveProgress(tables) && Complete(tables, w)
    ensures AllCovered(tables, w)
  {
    GateMeans(tables, w);
  }

  /** `get_latest_window`. */
  function LatestWindow(tables: seq<Table>): Option<Time> {
    match MinFlushed(tables)
    case None => None
    case Some(wm) => Some(WindowStart(wm) - WINDOW_SIZE)
  }

  /** The latest window is the greatest aligned start the gate admits, before
      and after the epoch; there is none exactly when the gate admits nothing. */
  lemma {:induction false} LatestWindowExact(tables: seq<Table>)
    ensures LatestWindow(tables).None? ==> forall w :: !Complete(tables, w)
    ensures LatestWindow(tables).Some? ==>
              var latest := LatestWindow(tables).value;
              && Aligned(latest) && Complete(tables, latest)
              && forall w :: Aligned(w) && Complete(tables, w) ==> w <= latest
  {
  }

  // ---------- The answer ----------

  predicate ValidQuery(q: StatsQuery) {
    && LEVEL_GLOBAL <= q.level <= LEVEL_NAMESPACE
    && (q.level >= LEVEL_WIKI ==> q.family.Some?)
    && (q.level >= LEVEL_NAMESPACE ==> q.wiki.Some?)
  }

  /** `parent_key`; the global level has no parent and does not ask for one. */
  function ParentKey(q: StatsQuery): (parent: CellKey)
    requires ValidQuery(q)
    ensures Canonical(parent) && parent.level < LEVEL_NAMESPACE
  {
    if q.level <= LEVEL_FAMILY then GLOBAL
    else if q.level == LEVEL_WIKI then CellKey(LEVEL_FAMILY, q.family.value, ROLLUP_STR, ROLLUP_NAMESPACE)
    else CellKey(LEVEL_WIKI, q.family.value, q.wiki.value, ROLLUP_NAMESPACE)
  }

  /** The children of the parent key are the cells of the level asked for, in the
      family and the wiki asked for. */
  lemma {:induction false} ParentKeySelects(q: StatsQuery, c: CellKey)
    requires ValidQuery(q) && q.level > LEVEL_GLOBAL && Canonical(c)
    ensures Parent(c) == Some(ParentKey(q)) <==>
            && c.level == q.level
            && (q.level >= LEVEL_WIKI ==> c.family == q.family.value)
            && (q.level >= LEVEL_NAMESPACE ==> c.wiki == q.wiki.value)
  {
  }

  /** `fetch_cell` or `fetch_cell_hll` may return this. */
  ghost predicate ReadsCell(view: seq<CellRows>, c: CellKey, estimator: Estimator, estimate: Estimate,
                            cell: Option<RawCell>) {
    match estimator
    case Exact => cell == Some(FetchCell(view, c))
    case Hll => ReadsCellHll(view, c, estimate, cell)
  }

  /** `fetch_children` or `fetch_children_hll` may return this. */
  ghost predicate ReadsChildren(view: seq<CellRows>, parent: CellKey, estimator: Estimator, estimate: Estimate,
                                children: seq<RawCell>) {
    match estimator
    case Exact =>
      exists order :: Enumerates(order, Groups(view, parent)) && children == FetchGroups(view, parent, order)
    case Hll => ReadsChildrenHll(view, parent, estimate, children)
  }

  function UsersOrZero(cell: Option<RawCell>): nat {
    if cell.Some? then cell.value.users else 0
  }

  /** The global level: its one cell, shown or merged into `Other`. The exact
      query always finds a cell; the sketch query finds none without rows. */
  function GlobalCells(cell: Option<RawCell>, k: nat): seq<ResultCell> {
    match cell
    case None => []
    case Some(c) => [if SuppressSingle(c, k) then Show(c) else Other(c.events, c.users)]
  }

  /** `resp` is an answer `compute_stats` may give, with noise off, when its first
      query reads the one view and its second query the other: the order of rows
      and of groups is the database's to choose. */
  ghost predicate IsAnswerOver(first: seq<CellRows>, second: seq<CellRows>, q: StatsQuery, k: nat,
                               estimate: Estimate, resp: StatsResponse)
    requires ValidQuery(q)
  {
    && resp.windowStart == q.window && resp.level == q.level
    && if q.level == LEVEL_GLOBAL
       then exists cell :: ReadsCell(first, GLOBAL, q.estimator, estimate, cell) && resp.cells == GlobalCells(cell, k)
       else exists cell, children ::
              && ReadsCell(first, ParentKey(q), q.estimator, estimate, cell)
              && ReadsChildren(second, ParentKey(q), q.estimator, estimate, children)
              && resp.cells == Suppressed(UsersOrZero(cell), children, k)
  }

  ghost predicate IsAnswer(view: seq<CellRows>, q: StatsQuery, k: nat, estimate: Estimate, resp: StatsResponse)
    requires ValidQuery(q)
  {
    IsAnswerOver(view, view, q, k, estimate, resp)
  }

  // ---------- On reachable tables ----------

  /** The cell both queries stand for, whatever the order of the rows. */
  function CellOf(view: seq<CellRows>, c: CellKey, estimator: Estimator, estimate: Estimate): RawCell {
    if estimator.Exact? then FetchCell(view, c) else SketchCell(view, c, estimate)
  }

  function CellsOf(view: seq<CellRows>, order: seq<CellKey>, estimator: Estimator, estimate: Estimate):
      (cells: seq<RawCell>)
    ensures |cells| == |order|
    ensures forall i :: 0 <= i < |cells| ==> cells[i] == CellOf(view, order[i], estimator, estimate)
  {
    if |order| == 0 then []
    else [CellOf(view, order[0], estimator, estimate)] + CellsOf(view, order[1..], estimator, estimate)
  }

  /** What a cell query returns is determined, row order or not. */
  lemma {:induction false} CellRead(hash: Hasher, parts: seq<Part>, w: Time, c: CellKey, estimator: Estimator,
                                    estimate: Estimate, cell: Option<RawCell>)
    requires PartsSound(hash, parts) && ReadsCell(ViewAt(TablesOf(parts), w), c, estimator, estimate, cell)
    ensures var view := ViewAt(TablesOf(parts), w);
            && (cell.None? <==> estimator.Hll? && RowsFor(view, c) == {})
            && (cell.Some? ==> cell.value == CellOf(view, c, estimator, estimate))
            && UsersOrZero(cell) == CellOf(view, c, estimator, estimate).users
  {
    hide PartsSound, MergedCell, FetchCell, SketchOf, SketchedBy, SketchColumn, Accumulates;
    var view := ViewAt(TablesOf(parts), w);
    if estimator.Hll? {
      if RowsFor(view, c) == {} {
        NoRowsNoSketch(hash, parts, w, c);
      } else {
        var order: seq<nat> :| Within(order, |view|) && Enumerates(order, RowsFor(view, c))
                               && MergedCell(view, c, order, estimate, cell.value);
        MergedCellIs(hash, parts, w, c, order, estimate, cell.value);
      }
    }
  }

  lemma {:induction false} NoRowsNoSketch(hash: Hasher, parts: seq<Part>, w: Time, c: CellKey)
    requires PartsSound(hash, parts) && RowsFor(ViewAt(TablesOf(parts), w), c) == {}
    ensures SketchOf(ViewAt(TablesOf(parts), w), c).None?
  {
    hide PartsSound, MergeRows, SketchedBy, SketchColumn, Accumulates;
    var view := ViewAt(TablesOf(parts), w);
    var order := FirstToLast(view, c, |view|);
    FirstToLastMembers(view, c, |view|);
    MergeRowsAccumulates(hash, parts, w, c, order);
    forall i | 0 <= i < |order|
      ensures order[i] in RowsFor(view, c)
    {
      assert order[i] in order;
    }
  }

  /** What a children query returns is determined up to order: the cells of the
      parent's children in the hierarchy, each once. */
  lemma {:induction false} ChildrenRead(hash: Hasher, parts: seq<Part>, w: Time, parent: CellKey, estimator: Estimator,
                                        estimate: Estimate, children: seq<RawCell>) returns (order: seq<CellKey>)
    requires PartsSound(hash, parts) && Canonical(parent)
    requires ReadsChildren(ViewAt(TablesOf(parts), w), parent, estimator, estimate, children)
    ensures var view := ViewAt(TablesOf(parts), w);
            && Enumerates(order, ChildKeys(view, parent))
            && children == CellsOf(view, order, estimator, estimate)
  {
    hide PartsSound, Enumerates, Groups, FetchGroup, FetchCell, SketchCell, Canonical, CanonicalView, KeyOf;
    var view := ViewAt(TablesOf(parts), w);
    ReachableCanonical(hash, parts, w);
    SelectedAreChildren(view, parent);
    match estimator
    case Exact =>
      var groups :| Enumerates(groups, Groups(view, parent)) && children == FetchGroups(view, parent, groups);
      QueryReturnsChildren(view, parent, groups);
      order := KeysOf(parent, groups);
    case Hll =>
      var rows, keys :| GroupedCells(view, parent, rows, keys, estimate, children);
      GroupedCellsAre(hash, parts, w, parent, rows, keys, estimate, children);
      order := keys;
  }

  /** What the exact queries return counts: every cell has its key's names, the
      number of its events, and, with routed users, the number of its people. */
  lemma {:induction false} ExactQueriesCount(hash: Hasher, parts: seq<Part>, w: Time, parent: CellKey,
                                             estimate: Estimate, cell: Option<RawCell>, children: seq<RawCell>)
      returns (order: seq<CellKey>)
    requires PartsSound(hash, parts) && Routed(parts) && Canonical(parent)
    requires ReadsCell(ViewAt(TablesOf(parts), w), parent, Exact, estimate, cell)
    requires ReadsChildren(ViewAt(TablesOf(parts), w), parent, Exact, estimate, children)
    ensures Enumerates(order, ChildKeys(ViewAt(TablesOf(parts), w), parent)) && |children| == |order|
    ensures cell.Some? && cell.value == CountedCell(parts, w, parent)
    ensures forall i :: 0 <= i < |order| ==> children[i] == CountedCell(parts, w, order[i])
  {
    hide PartsSound, Routed, ReadsCell, ReadsChildren, Enumerates, ChildKeys, FetchAll, ColumnSum, Canonical;
    order := ChildrenRead(hash, parts, w, parent, Exact, estimate, children);
    CellRead(hash, parts, w, parent, Exact, estimate, cell);
    forall c
      ensures FetchCell(ViewAt(TablesOf(parts), w), c) == CountedCell(parts, w, c)
    {
      FetchCellCounts(hash, parts, w, c);
    }
  }

  lemma {:induction false} FetchCellCounts(hash: Hasher, parts: seq<Part>, w: Time, c: CellKey)
    requires PartsSound(hash, parts) && Routed(parts)
    ensures FetchCell(ViewAt(TablesOf(parts), w), c) == CountedCell(parts, w, c)
  {
    hide PartsSound, Routed, ColumnSum, EntriesTotal, EveryoneOf;
    CountedEventsExact(hash, parts, w, c);
    DistinctUsersExact(hash, parts, w, c);
  }

  /** A cell's names, its counted events, and its distinct people. */
  function CountedCell(parts: seq<Part>, w: Time, c: CellKey): RawCell {
    RawCell(c.family, c.wiki, c.namespace, EntriesTotal(parts, w, c), |EveryoneOf(parts, w, c)|)
  }

  /** What the sketch queries return counts: the parent's cell, if it has a row,
      and each of its children in the hierarchy, once, under its own names. */
  lemma {:induction false} SketchQueriesCount(hash: Hasher, parts: seq<Part>, runs: seq<seq<Action>>, on: bool,
                                              w: Time, parent: CellKey, estimate: Estimate, cell: Option<RawCell>,
                                              children: seq<RawCell>) returns (order: seq<CellKey>)
    requires AllRanWith(hash, parts, runs, on) && Canonical(parent)
    requires ReadsCell(ViewAt(TablesOf(parts), w), parent, Hll, estimate, cell)
    requires ReadsChildren(ViewAt(TablesOf(parts), w), parent, Hll, estimate, children)
    ensures Enumerates(order, ChildKeys(ViewAt(TablesOf(parts), w), parent)) && |children| == |order|
    ensures cell.Some? <==> exists p :: 0 <= p < |parts| && parent in RowsAt(parts[p].state.table, w)
    ensures cell.Some? ==> CountsPeople(hash, parts, w, parent, on, estimate, cell.value)
    ensures forall i :: 0 <= i < |order| ==> CountsPeople(hash, parts, w, order[i], on, estimate, children[i])
  {
    hide AllRanWith, PartsSound, ReadsCell, ReadsChildren, SketchCell, CountsPeople, Canonical, RowsAt;
    var view := ViewAt(TablesOf(parts), w);
    RanIsSound(hash, parts, runs, on);
    order := ChildrenRead(hash, parts, w, parent, Hll, estimate, children);
    CellRead(hash, parts, w, parent, Hll, estimate, cell);
    assert forall p: nat :: p in RowsFor(view, parent) <==> p < |parts| && parent in RowsAt(parts[p].state.table, w);
    if cell.Some? {
      assert Pick(RowsFor(view, parent)) < |parts|;
      SketchCellCounts(hash, parts, runs, on, w, parent, estimate);
    }
    forall i | 0 <= i < |order|
      ensures CountsPeople(hash, parts, w, order[i], on, estimate, children[i])
    {
      assert order[i] in ChildKeys(view, parent);
      var p :| 0 <= p < |view| && order[i] in view[p];
      assert p in RowsFor(view, order[i]);
      SketchCellCounts(hash, parts, runs, on, w, order[i], estimate);
    }
  }

  /** Every answer above the global level is the suppression of the parent's
      children in the hierarchy, in some order. */
  lemma {:induction false} AnswerIs(hash: Hasher, parts: seq<Part>, q: StatsQuery, k: nat, estimate: Estimate,
                                    resp: StatsResponse) returns (order: seq<CellKey>)
    requires ValidQuery(q) && q.level > LEVEL_GLOBAL && PartsSound(hash, parts)
    requires IsAnswer(ViewAt(TablesOf(parts), q.window), q, k, estimate, resp)
    ensures var view := ViewAt(TablesOf(parts), q.window);
            && Enumerates(order, ChildKeys(view, ParentKey(q)))
            && resp.cells == Suppressed(CellOf(view, ParentKey(q), q.estimator, estimate).users,
                                        CellsOf(view, order, q.estimator, estimate), k)
  {
    hide PartsSound, Suppressed, ReadsCell, ReadsChildren, Enumerates, ChildKeys, Canonical;
    var view, parent := ViewAt(TablesOf(parts), q.window), ParentKey(q);
    var cell, children :| ReadsCell(view, parent, q.estimator, estimate, cell)
                          && ReadsChildren(view, parent, q.estimator, estimate, children)
                          && resp.cells == Suppressed(UsersOrZero(cell), children, k);
    CellRead(hash, parts, q.window, parent, q.estimator, estimate, cell);
    order := ChildrenRead(hash, parts, q.window, parent, q.estimator, estimate, children);
  }

  /** Two enumerations of the same keys list the same cells. */
  lemma {:induction false} SameKeysPermuted(view: seq<CellRows>, x: seq<CellKey>, y: seq<CellKey>, keys: set<CellKey>,
                                            estimator: Estimator, estimate: Estimate)
    requires Enumerates(x, keys) && Enumerates(y, keys)
    ensures Permuted(CellsOf(view, x, estimator, estimate), CellsOf(view, y, estimator, estimate))
    decreases |x|
  {
    hide CellOf, CellsOf, Enumerates, Permuted;
    EnumeratesCard(x, keys);
    EnumeratesCard(y, keys);
    if |x| > 0 {
      var j := IndexIn(x, y, keys);
      var rest := y[..j] + y[j + 1..];
      DropOne(x, keys, 0);
      assert x[..0] + x[1..] == x[1..];
      DropOne(y, keys, j);
      SameKeysPermuted(view, x[1..], rest, keys - {x[0]}, estimator, estimate);
      CellsWithout(view, x, 0, estimator, estimate);
      CellsWithout(view, y, j, estimator, estimate);
      PermutedOneMore(CellsOf(view, x, estimator, estimate), CellsOf(view, y, estimator, estimate), j);
    } else {
      assert x == y;
      PermutedSelf(CellsOf(view, x, estimator, estimate));
    }
  }

  lemma {:induction false} CellsWithout(view: seq<CellRows>, order: seq<CellKey>, j: nat, estimator: Estimator,
                                        estimate: Estimate)
    requires j < |order|
    ensures var cells := CellsOf(view, order, estimator, estimate);
            cells[..j] + cells[j + 1..] == CellsOf(view, order[..j] + order[j + 1..], estimator, estimate)
  {
    hide CellOf, CellsOf;
  }

  lemma {:induction false} IndexIn(x: seq<CellKey>, y: seq<CellKey>, keys: set<CellKey>) returns (j: nat)
    requires Enumerates(x, keys) && Enumerates(y, keys) && |x| > 0
    ensures j < |y| && y[j] == x[0]
  {
    assert x[0] in y;
    j :| 0 <= j < |y| && y[j] == x[0];
  }

  /** Two answers that differ, if at all, in which of the children tied at the
      least eligible count is pulled into `Other`: the user counts are the same
      in sequence; other visible cells are the same; and unless a child is
      pulled, so is the rest. */
  ghost predicate SameAnswer(view: seq<CellRows>, q: StatsQuery, k: nat, estimate: Estimate, a: StatsResponse,
                             b: StatsResponse)
    requires ValidQuery(q)
  {
    && ResultCounts(a.cells) == ResultCounts(b.cells)
    && if q.level == LEVEL_GLOBAL then a == b
       else exists order :: && Enumerates(order, ChildKeys(view, ParentKey(q)))
                            && DifferInTies(CellOf(view, ParentKey(q), q.estimator, estimate).users,
                                            CellsOf(view, order, q.estimator, estimate), k, a.cells, b.cells)
  }

  ghost predicate DifferInTies(users: nat, children: seq<RawCell>, k: nat, a: seq<ResultCell>, b: seq<ResultCell>) {
    && AgreeBut(a, b, LeastCount(children, k))
    && (!Pulls(users, children, k) ==> Permuted(a, b))
  }

  /** Any two answers to one query, exact or by sketch, with the rows and groups
      in any two orders, are the same up to ties. */
  lemma {:induction false} AnswersAgree(hash: Hasher, parts: seq<Part>, q: StatsQuery, k: nat, estimate: Estimate,
                                        a: StatsResponse, b: StatsResponse)
    requires ValidQuery(q) && PartsSound(hash, parts)
    requires IsAnswer(ViewAt(TablesOf(parts), q.window), q, k, estimate, a)
    requires IsAnswer(ViewAt(TablesOf(parts), q.window), q, k, estimate, b)
    ensures SameAnswer(ViewAt(TablesOf(parts), q.window), q, k, estimate, a, b)
  {
    hide PartsSound, Suppressed, ReadsCell, ReadsChildren, Enumerates, ChildKeys, CellsOf, CellOf, Counts;
    hide ResultCounts, Canonical, Permuted, AgreeBut, LeastCount, Pulls;
    var view := ViewAt(TablesOf(parts), q.window);
    if q.level == LEVEL_GLOBAL {
      var x :| ReadsCell(view, GLOBAL, q.estimator, estimate, x) && a.cells == GlobalCells(x, k);
      var y :| ReadsCell(view, GLOBAL, q.estimator, estimate, y) && b.cells == GlobalCells(y, k);
      CellRead(hash, parts, q.window, GLOBAL, q.estimator, estimate, x);
      CellRead(hash, parts, q.window, GLOBAL, q.estimator, estimate, y);
    } else {
      var x := AnswerIs(hash, parts, q, k, estimate, a);
      var y := AnswerIs(hash, parts, q, k, estimate, b);
      SameKeysPermuted(view, x, y, ChildKeys(view, ParentKey(q)), q.estimator, estimate);
      SuppressionDiffersInTies(CellOf(view, ParentKey(q), q.estimator, estimate).users,
                               CellsOf(view, x, q.estimator, estimate), CellsOf(view, y, q.estimator, estimate), k);
    }
  }

  // ---------- Computing an answer ----------

  /** What the arithmetic of the endpoint demands: the sums of events fit the
      casts to `bigint`, and sums of estimates, at most `most` each, fit `u64`. */
  ghost predicate SumsFit(view: seq<CellRows>, parent: CellKey, estimator: Estimator, estimate: Estimate, most: nat) {
    && FitsBigint(view)
    && (estimator.Hll? ==>
          (forall s :: estimate(s) <= most) && most * (1 + |Selected(view, parent)|) < U64_LIMIT)
  }

  lemma {:induction false} TotalsBound(a: seq<RawCell>, b: seq<RawCell>, most: nat)
    requires |a| == |b| && forall i :: 0 <= i < |a| ==> a[i].events == b[i].events && a[i].users <= most
    ensures TotalEvents(a) == TotalEvents(b) && TotalUsers(a) <= most * |a|
    decreases |a|
  {
    if |a| > 0 {
      TotalsBound(a[1..], b[1..], most);
      Multiply(most, |a| - 1);
    }
  }

  lemma {:induction false} Multiply(m: nat, n: nat)
    ensures m * (n + 1) == m * n + m
  {
  }

  lemma {:induction false} SketchTotals(view: seq<CellRows>, order: seq<CellKey>, estimate: Estimate, most: nat)
    requires forall s :: estimate(s) <= most
    ensures TotalEvents(CellsOf(view, order, Hll, estimate)) == TotalEvents(FetchAll(view, order))
    ensures TotalUsers(CellsOf(view, order, Hll, estimate)) <= most * |order|
  {
    hide ColumnSum, SketchOf, CellsOf, FetchAll, TotalUsers, TotalEvents;
    TotalsBound(CellsOf(view, order, Hll, estimate), FetchAll(view, order), most);
  }

  /** No sum of `suppress` overflows on what the queries return, even when
      commits land between the two. */
  lemma {:induction false} AnswerSumsFit(hash: Hasher, first: seq<Part>, second: seq<Part>, w: Time, parent: CellKey,
                                         estimator: Estimator, estimate: Estimate, most: nat, cell: Option<RawCell>,
                                         children: seq<RawCell>)
    requires PartsSound(hash, first) && PartsSound(hash, second) && Canonical(parent) && parent.level < LEVEL_NAMESPACE
    requires SumsFit(ViewAt(TablesOf(first), w), parent, estimator, estimate, most)
    requires SumsFit(ViewAt(TablesOf(second), w), parent, estimator, estimate, most)
    requires ReadsCell(ViewAt(TablesOf(first), w), parent, estimator, estimate, cell)
    requires ReadsChildren(ViewAt(TablesOf(second), w), parent, estimator, estimate, children)
    ensures Population(UsersOrZero(cell), children) < U64_LIMIT && TotalEvents(children) < U64_LIMIT
  {
    hide PartsSound, ReadsCell, ReadsChildren, Enumerates, ChildKeys, Selected, FetchAll, CellsOf, SketchOf;
    hide TotalUsers, TotalEvents, Canonical, RowsFor, ColumnSum;
    var view := ViewAt(TablesOf(second), w);
    CellRead(hash, first, w, parent, estimator, estimate, cell);
    var order := ChildrenRead(hash, second, w, parent, estimator, estimate, children);
    ExactSumsFit(hash, second, w, parent, order);
    if estimator.Hll? {
      ReachableCanonical(hash, second, w);
      SelectedAreChildren(view, parent);
      EnumeratesCard(order, ChildKeys(view, parent));
      SketchTotals(view, order, estimate, most);
      Multiply(most, |order|);
    } else {
      UsersAtMostEvents(hash, first, w, parent);
      SameExactCells(view, order, estimate);
    }
  }

  lemma {:induction false} SameExactCells(view: seq<CellRows>, order: seq<CellKey>, estimate: Estimate)
    ensures CellsOf(view, order, Exact, estimate) == FetchAll(view, order)
  {
    hide FetchCell;
  }

  method FetchCellBy(ghost hash: Hasher, ghost parts: seq<Part>, ghost w: Time, view: seq<CellRows>, c: CellKey,
                     estimator: Estimator, estimate: Estimate) returns (cell: Option<RawCell>)
    requires PartsSound(hash, parts) && view == ViewAt(TablesOf(parts), w)
    ensures ReadsCell(view, c, estimator, estimate, cell)
  {
    if estimator.Exact? {
      cell := Some(FetchCell(view, c));
    } else {
      cell := FetchCellHll(hash, parts, w, view, c, estimate);
    }
  }

  method FetchChildrenBy(ghost hash: Hasher, ghost parts: seq<Part>, ghost w: Time, view: seq<CellRows>,
                         parent: CellKey, estimator: Estimator, estimate: Estimate) returns (children: seq<RawCell>)
    requires PartsSound(hash, parts) && view == ViewAt(TablesOf(parts), w) && Canonical(parent)
    ensures ReadsChildren(view, parent, estimator, estimate, children)
  {
    if estimator.Exact? {
      hide PartsSound, Enumerates, Groups, Selected, FetchAll, FetchGroups, GroupsOf, Canonical, CanonicalView;
      var order := ListAll(Selected(view, parent));
      children := FetchAll(view, order);
      ReachableCanonical(hash, parts, w);
      ChildrenAreGroups(view, parent, order);
    } else {
      children := FetchChildrenHll(hash, parts, w, view, parent, estimate);
    }
  }

  /** `compute_stats`, with noise off, over tables the aggregators can reach; its
      two queries are separate statements and may read two states. No merge
      panics and no sum overflows. */
  method ComputeStats(ghost hash: Hasher, ghost early: seq<Part>, ghost late: seq<Part>, first: seq<CellRows>,
                      second: seq<CellRows>, q: StatsQuery, k: nat, estimate: Estimate, ghost most: nat)
      returns (response: StatsResponse)
    requires ValidQuery(q) && PartsSound(hash, early) && PartsSound(hash, late)
    requires first == ViewAt(TablesOf(early), q.window) && second == ViewAt(TablesOf(late), q.window)
    requires SumsFit(first, ParentKey(q), q.estimator, estimate, most)
    requires SumsFit(second, ParentKey(q), q.estimator, estimate, most)
    ensures IsAnswerOver(first, second, q, k, estimate, response)
    ensures response.windowStart == q.window && response.level == q.level
  {
    hide PartsSound, ReadsCell, ReadsChildren, Suppressed, SumsFit, Canonical;
    if q.level == LEVEL_GLOBAL {
      var global := FetchCellBy(hash, early, q.window, first, GLOBAL, q.estimator, estimate);
      response := StatsResponse(q.window, q.level, GlobalCells(global, k));
    } else {
      var parent := ParentKey(q);
      var cell := FetchCellBy(hash, early, q.window, first, parent, q.estimator, estimate);
      var children := FetchChildrenBy(hash, late, q.window, second, parent, q.estimator, estimate);
      AnswerSumsFit(hash, early, late, q.window, parent, q.estimator, estimate, most, cell, children);
      var cells, _ := Suppress(UsersOrZero(cell), children, k);
      response := StatsResponse(q.window, q.level, cells);
    }
  }
}
