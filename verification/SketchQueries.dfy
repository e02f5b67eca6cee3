/** The sketch queries `fetch_cell_hll` and `fetch_children_hll`: the rows come
    in whatever order the database returns them, and are merged in that order.
    crates/query-api/src/db.rs. */
module SketchQueries {
  import opened Collections
  import opened Windows
  import opened Hierarchy
  import opened Sketches
  import opened Protocol
  import opened Durability
  import opened Privacy
  import opened Queries

  /** The estimate of a merged sketch, rounded; floating point, hence arbitrary. */
  type Estimate = Sketch -> nat

  // ---------- Merging rows in order ----------

  /** The partitions that stored a row for a cell. */
  function RowsFor(view: seq<CellRows>, c: CellKey): set<nat> {
    set p: nat | p < |view| && c in view[p]
  }

  /** A partition's sketch for a cell, if it stored one. */
  function SketchColumn(view: seq<CellRows>, c: CellKey, p: nat): Option<seq<nat>>
    requires p < |view|
  {
    if c in view[p] then view[p][c].hll else None
  }

  predicate Within(order: seq<nat>, n: nat) {
    forall i :: 0 <= i < |order| ==> order[i] < n
  }

  /** Merging sketches of unequal precision panics. */
  datatype MergeOutcome = Panics | Merges(sketch: Option<Sketch>)

  /** The merge loop over a cell's rows, in the given order. */
  function MergeRows(view: seq<CellRows>, c: CellKey, order: seq<nat>): MergeOutcome
    requires Within(order, |view|)
    decreases |order|
  {
    if |order| == 0 then Merges(None)
    else
      var last := |order| - 1;
      var acc := MergeRows(view, c, order[..last]);
      var bytes := SketchColumn(view, c, order[last]);
      if acc.Panics? || !CanMerge(acc.sketch, bytes) then Panics else Merges(MergeBytes(acc.sketch, bytes))
  }

  function EventsInOrder(view: seq<CellRows>, c: CellKey, order: seq<nat>): nat
    requires Within(order, |view|)
    decreases |order|
  {
    if |order| == 0 then 0
    else EventsInOrder(view, c, order[..|order| - 1]) + EventsOf(view[order[|order| - 1]], c)
  }

  function HllCell(c: CellKey, events: nat, sketch: Option<Sketch>, estimate: Estimate): RawCell {
    RawCell(c.family, c.wiki, c.namespace, events, if sketch.Some? then estimate(sketch.value) else 0)
  }

  /** `cell` is what merging the rows in this order gives. */
  ghost predicate MergedCell(view: seq<CellRows>, c: CellKey, order: seq<nat>, estimate: Estimate, cell: RawCell)
    requires Within(order, |view|)
  {
    && MergeRows(view, c, order).Merges?
    && cell == HllCell(c, EventsInOrder(view, c, order), MergeRows(view, c, order).sketch, estimate)
  }

  /** `fetch_cell_hll` may return this. */
  ghost predicate ReadsCellHll(view: seq<CellRows>, c: CellKey, estimate: Estimate, cell: Option<RawCell>) {
    if RowsFor(view, c) == {} then cell.None?
    else
      && cell.Some?
      && exists order: seq<nat> ::
           && Within(order, |view|) && Enumerates(order, RowsFor(view, c))
           && MergedCell(view, c, order, estimate, cell.value)
  }

  /** The rows `fetch_children_hll` selects, by partition and key. */
  function SelectedRows(view: seq<CellRows>, parent: CellKey): set<(nat, CellKey)> {
    set p: nat, c | p < |view| && c in view[p] && MatchesWhere(parent, c) :: (p, c)
  }

  predicate RowsWithin(rows: seq<(nat, CellKey)>, n: nat) {
    forall i :: 0 <= i < |rows| ==> rows[i].0 < n
  }

  /** The order in which one cell's rows come. */
  function OrderFor(rows: seq<(nat, CellKey)>, c: CellKey): (order: seq<nat>)
    ensures forall n :: RowsWithin(rows, n) ==> Within(order, n)
    decreases |rows|
  {
    if |rows| == 0 then []
    else
      var last := rows[|rows| - 1];
      assert forall n :: RowsWithin(rows, n) ==> RowsWithin(rows[..|rows| - 1], n) && last.0 < n;
      OrderFor(rows[..|rows| - 1], c) + if last.1 == c then [last.0] else []
  }

  /** `fetch_children_hll` may return this: the rows in any order, and the groups
      of the hash map in any other. */
  ghost predicate ReadsChildrenHll(view: seq<CellRows>, parent: CellKey, estimate: Estimate, cells: seq<RawCell>) {
    exists rows, order :: GroupedCells(view, parent, rows, order, estimate, cells)
  }

  ghost predicate GroupedCells(view: seq<CellRows>, parent: CellKey, rows: seq<(nat, CellKey)>, order: seq<CellKey>,
                               estimate: Estimate, cells: seq<RawCell>) {
    && RowsWithin(rows, |view|) && Enumerates(rows, SelectedRows(view, parent))
    && Enumerates(order, Selected(view, parent))
    && |cells| == |order|
    && forall i :: 0 <= i < |order| ==> MergedCell(view, order[i], OrderFor(rows, order[i]), estimate, cells[i])
  }

  // ---------- On reachable tables the order does not show ----------

  /** The users whose sketches the listed partitions stored. */
  function SketchedBy(parts: seq<Part>, w: Time, c: CellKey, order: seq<nat>): set<User>
    requires Within(order, |parts|)
  {
    set i, u | 0 <= i < |order| && SketchColumn(ViewAt(TablesOf(parts), w), c, order[i]).Some?
               && u in PeopleOf(parts[order[i]], w, c) :: u
  }

  lemma {:induction false} ColumnEncodes(hash: Hasher, parts: seq<Part>, w: Time, c: CellKey, p: nat)
    requires PartsSound(hash, parts) && p < |parts|
    ensures Encodes(hash, SketchColumn(ViewAt(TablesOf(parts), w), c, p), PeopleOf(parts[p], w, c))
  {
    hide Inv, RowsAt, PeopleOf;
    RowsMatchLog(hash, parts[p], w, c);
  }

  lemma {:induction false} NothingAccumulated(hash: Hasher)
    ensures Accumulates(hash, None, {})
  {
  }

  /** Merging the rows of a cell, in any order, never panics, and gives the
      sketch of the union of the exact user sets behind the stored sketches. */
  lemma {:induction false} MergeRowsAccumulates(hash: Hasher, parts: seq<Part>, w: Time, c: CellKey, order: seq<nat>)
    requires PartsSound(hash, parts) && Within(order, |parts|)
    ensures var view := ViewAt(TablesOf(parts), w);
            var merged := MergeRows(view, c, order);
            && merged.Merges?
            && Accumulates(hash, merged.sketch, SketchedBy(parts, w, c, order))
            && (merged.sketch.Some? <==> exists i :: 0 <= i < |order| && SketchColumn(view, c, order[i]).Some?)
    decreases |order|
  {
    hide PartsSound, PeopleOf, Accumulates, Encodes, CanMerge, MergeBytes, SketchColumn;
    var view := ViewAt(TablesOf(parts), w);
    if |order| == 0 {
      NothingAccumulated(hash);
      assert SketchedBy(parts, w, c, order) == {};
    } else {
      var last := |order| - 1;
      var earlier, p := order[..last], order[last];
      MergeRowsAccumulates(hash, parts, w, c, earlier);
      ColumnEncodes(hash, parts, w, c, p);
      MergeBytesAccumulates(hash, MergeRows(view, c, earlier).sketch, SketchedBy(parts, w, c, earlier),
                            SketchColumn(view, c, p), PeopleOf(parts[p], w, c));
      SketchedGrows(parts, w, c, order);
      assert forall i :: 0 <= i < last ==> order[i] == earlier[i];
    }
  }

  lemma {:induction false} SketchedGrows(parts: seq<Part>, w: Time, c: CellKey, order: seq<nat>)
    requires Within(order, |parts|) && |order| > 0
    ensures var earlier, p := order[..|order| - 1], order[|order| - 1];
            SketchedBy(parts, w, c, order) ==
            if SketchColumn(ViewAt(TablesOf(parts), w), c, p).None? then SketchedBy(parts, w, c, earlier)
            else SketchedBy(parts, w, c, earlier) + PeopleOf(parts[p], w, c)
  {
    hide PeopleOf, SketchColumn;
    var last := |order| - 1;
    assert order == order[..last] + [order[last]];
  }

  lemma {:induction false} SketchedMember(parts: seq<Part>, w: Time, c: CellKey, a: seq<nat>, b: seq<nat>, u: User)
    requires Within(a, |parts|) && Within(b, |parts|) && forall p :: p in a ==> p in b
    ensures u in SketchedBy(parts, w, c, a) ==> u in SketchedBy(parts, w, c, b)
  {
    hide PeopleOf, SketchColumn;
    if u in SketchedBy(parts, w, c, a) {
      var i :| 0 <= i < |a| && SketchColumn(ViewAt(TablesOf(parts), w), c, a[i]).Some? &&
          u in PeopleOf(parts[a[i]], w, c);
      assert a[i] in b;
      var j :| 0 <= j < |b| && b[j] == a[i];
    }
  }

  lemma {:induction false} SketchedSame(parts: seq<Part>, w: Time, c: CellKey, a: seq<nat>, b: seq<nat>)
    requires Within(a, |parts|) && Within(b, |parts|) && forall p :: p in a <==> p in b
    ensures SketchedBy(parts, w, c, a) == SketchedBy(parts, w, c, b)
  {
    hide SketchedBy;
    forall u
      ensures u in SketchedBy(parts, w, c, a) <==> u in SketchedBy(parts, w, c, b)
    {
      SketchedMember(parts, w, c, a, b, u);
      SketchedMember(parts, w, c, b, a, u);
    }
  }

  /** Two merges over the same partitions, in any two orders, agree. */
  lemma {:induction false} MergeIgnoresOrder(hash: Hasher, parts: seq<Part>, w: Time, c: CellKey, a: seq<nat>,
                                             b: seq<nat>)
    requires PartsSound(hash, parts) && Within(a, |parts|) && Within(b, |parts|) && forall p :: p in a <==> p in b
    ensures MergeRows(ViewAt(TablesOf(parts), w), c, a) == MergeRows(ViewAt(TablesOf(parts), w), c, b)
  {
    hide PartsSound, SketchedBy, Summarises, SketchColumn, MergeRows;
    var view := ViewAt(TablesOf(parts), w);
    MergeRowsAccumulates(hash, parts, w, c, a);
    MergeRowsAccumulates(hash, parts, w, c, b);
    SketchedSame(parts, w, c, a, b);
    SameColumns(view, c, a, b);
    SameColumns(view, c, b, a);
    var x, y := MergeRows(view, c, a).sketch, MergeRows(view, c, b).sketch;
    if x.Some? && y.Some? {
      SketchUnique(hash, x.value, y.value, SketchedBy(parts, w, c, a));
    }
  }

  lemma {:induction false} SameColumns(view: seq<CellRows>, c: CellKey, a: seq<nat>, b: seq<nat>)
    requires Within(a, |view|) && Within(b, |view|) && forall p :: p in a ==> p in b
    ensures (exists i :: 0 <= i < |a| && SketchColumn(view, c, a[i]).Some?) ==>
              exists i :: 0 <= i < |b| && SketchColumn(view, c, b[i]).Some?
  {
    hide SketchColumn;
    if i :| 0 <= i < |a| && SketchColumn(view, c, a[i]).Some? {
      assert a[i] in b;
      var j :| 0 <= j < |b| && b[j] == a[i];
    }
  }

  // ---------- Sums in order ----------

  /** Where a value stands in an order. */
  lemma {:induction false} EventsWithout(view: seq<CellRows>, c: CellKey, order: seq<nat>, j: nat)
    requires Within(order, |view|) && j < |order|
    ensures Within(order[..j] + order[j + 1..], |view|)
    ensures EventsInOrder(view, c, order) ==
            EventsInOrder(view, c, order[..j] + order[j + 1..]) + EventsOf(view[order[j]], c)
    decreases |order|
  {
    hide EventsOf;
    var last := |order| - 1;
    if j == last {
      assert order[..j] + order[j + 1..] == order[..last];
    } else {
      EventsWithout(view, c, order[..last], j);
      var rest := order[..j] + order[j + 1..];
      assert rest[..|rest| - 1] == order[..last][..j] + order[..last][j + 1..];
    }
  }

  lemma {:induction false} EventsOfPrefix(view: seq<CellRows>, c: CellKey, order: seq<nat>, n: nat)
    requires n <= |view| && Within(order, n)
    ensures Within(order, |view|) && EventsInOrder(view[..n], c, order) == EventsInOrder(view, c, order)
    decreases |order|
  {
    if |order| > 0 {
      EventsOfPrefix(view, c, order[..|order| - 1], n);
    }
  }

  lemma {:induction false} ColumnSumLast(column: (CellRows, CellKey) -> nat, view: seq<CellRows>, c: CellKey)
    requires |view| > 0
    ensures ColumnSum(column, view, c) == ColumnSum(column, view[..|view| - 1], c) + column(view[|view| - 1], c)
    decreases |view|
  {
    if |view| > 1 {
      ColumnSumLast(column, view[1..], c);
      assert view[1..][..|view| - 2] == view[..|view| - 1][1..];
    }
  }

  /** The order without the last partition. */
  lemma {:induction false} EventsOfFront(view: seq<CellRows>, c: CellKey, order: seq<nat>) returns (rest: seq<nat>)
    requires |view| > 0 && Within(order, |view|) && Enumerates(order, RowsFor(view, c))
    ensures var last := |view| - 1;
            && Within(rest, last) && Enumerates(rest, RowsFor(view[..last], c))
            && EventsInOrder(view, c, order) == EventsInOrder(view[..last], c, rest) + EventsOf(view[last], c)
  {
    hide EventsInOrder;
    var last := |view| - 1;
    var front := view[..last];
    assert forall p: nat :: p in RowsFor(front, c) <==> p in RowsFor(view, c) && p != last;
    if c in view[last] {
      assert last in order;
      var j :| 0 <= j < |order| && order[j] == last;
      rest := order[..j] + order[j + 1..];
      EventsWithout(view, c, order, j);
      DropOne(order, RowsFor(view, c), j);
      assert RowsFor(front, c) == RowsFor(view, c) - {last};
    } else {
      rest := order;
      assert RowsFor(front, c) == RowsFor(view, c);
    }
    InFront(view, c, rest);
    EventsOfPrefix(view, c, rest, last);
  }

  /** Adding up a cell's rows in any order is the sum over partitions. */
  lemma {:induction false} EventsAnyOrder(view: seq<CellRows>, c: CellKey, order: seq<nat>)
    requires Within(order, |view|) && Enumerates(order, RowsFor(view, c))
    ensures EventsInOrder(view, c, order) == ColumnSum(EventsOf, view, c)
    decreases |view|
  {
    hide EventsOf;
    if |view| == 0 {
      EnumeratesCard(order, RowsFor(view, c));
    } else {
      hide EventsInOrder, ColumnSum;
      var rest := EventsOfFront(view, c, order);
      EventsAnyOrder(view[..|view| - 1], c, rest);
      ColumnSumLast(EventsOf, view, c);
    }
  }

  lemma {:induction false} InFront(view: seq<CellRows>, c: CellKey, order: seq<nat>)
    requires |view| > 0 && Enumerates(order, RowsFor(view[..|view| - 1], c))
    ensures Within(order, |view| - 1)
  {
  }

  // ---------- What the sketch queries return ----------

  /** The partitions with a row for a cell, in order. */
  function FirstToLast(view: seq<CellRows>, c: CellKey, n: nat): (order: seq<nat>)
    requires n <= |view|
    ensures Within(order, n)
  {
    if n == 0 then [] else FirstToLast(view, c, n - 1) + if c in view[n - 1] then [n - 1] else []
  }

  lemma {:induction false} FirstToLastMembers(view: seq<CellRows>, c: CellKey, n: nat)
    requires n <= |view|
    ensures forall p: nat :: p in FirstToLast(view, c, n) <==> p < n && c in view[p]
  {
    if n > 0 {
      FirstToLastMembers(view, c, n - 1);
    }
  }

  /** A cell's merged sketch, merging from the first partition to the last. */
  function SketchOf(view: seq<CellRows>, c: CellKey): Option<Sketch> {
    var merged := MergeRows(view, c, FirstToLast(view, c, |view|));
    if merged.Merges? then merged.sketch else None
  }

  function SketchCell(view: seq<CellRows>, c: CellKey, estimate: Estimate): RawCell {
    HllCell(c, ColumnSum(EventsOf, view, c), SketchOf(view, c), estimate)
  }

  /** On reachable tables the merged cell does not depend on the order of the rows. */
  lemma {:induction false} MergedCellIs(hash: Hasher, parts: seq<Part>, w: Time, c: CellKey, order: seq<nat>,
                                        estimate: Estimate, cell: RawCell)
    requires PartsSound(hash, parts) && Within(order, |parts|)
    requires Enumerates(order, RowsFor(ViewAt(TablesOf(parts), w), c))
    ensures var view := ViewAt(TablesOf(parts), w);
            MergedCell(view, c, order, estimate, cell) <==> cell == SketchCell(view, c, estimate)
  {
    hide PartsSound, MergeRows, EventsInOrder, ColumnSum, FirstToLast;
    var view := ViewAt(TablesOf(parts), w);
    EventsAnyOrder(view, c, order);
    FirstToLastMembers(view, c, |view|);
    MergeIgnoresOrder(hash, parts, w, c, order, FirstToLast(view, c, |view|));
    MergeRowsAccumulates(hash, parts, w, c, order);
  }

  /** What `estimator=hll` counts: nobody where no sketch was stored, and
      otherwise the estimate of the one sketch of the union of the exact user
      sets whose sketches were stored. */
  lemma {:induction false} SketchCellMeans(hash: Hasher, parts: seq<Part>, w: Time, c: CellKey, estimate: Estimate)
    requires PartsSound(hash, parts)
    ensures var view := ViewAt(TablesOf(parts), w);
            var rows := FirstToLast(view, c, |view|);
            if forall p :: p in rows ==> SketchColumn(view, c, p).None? then SketchCell(view, c, estimate).users == 0
            else exists s :: && Summarises(hash, s, SketchedBy(parts, w, c, rows)) && s.precision == DEFAULT_PRECISION
                             && SketchCell(view, c, estimate).users == estimate(s)
  {
    hide PartsSound, MergeRows, SketchedBy, Summarises, SketchColumn, FirstToLast;
    var view := ViewAt(TablesOf(parts), w);
    MergeRowsAccumulates(hash, parts, w, c, FirstToLast(view, c, |view|));
  }

  // ---------- When every row has a column, and when none has ----------

  /** Every partition got where it is by a run whose resumes all turn sketches
      on, or all leave them off. */
  ghost predicate AllRanWith(hash: Hasher, parts: seq<Part>, runs: seq<seq<Action>>, on: bool) {
    && |runs| == |parts|
    && forall p :: 0 <= p < |parts| ==>
         && ResumesUse(runs[p], on)
         && Runs(parts[p].log, hash, INIT, runs[p])
         && parts[p].state == Exec(parts[p].log, hash, INIT, runs[p])
  }

  lemma {:induction false} RanIsSound(hash: Hasher, parts: seq<Part>, runs: seq<seq<Action>>, on: bool)
    requires AllRanWith(hash, parts, runs, on)
    ensures PartsSound(hash, parts)
    ensures forall p, key :: 0 <= p < |parts| && key in parts[p].state.table.rows ==>
              parts[p].state.table.rows[key].hll.Some? == on
  {
    hide Inv, Runs, Exec;
    forall p | 0 <= p < |parts|
      ensures Inv(parts[p].log, hash, parts[p].state)
      ensures forall key :: key in parts[p].state.table.rows ==> parts[p].state.table.rows[key].hll.Some? == on
    {
      InitInv(parts[p].log, hash);
      RunInv(parts[p].log, hash, INIT, runs[p]);
      RunColumns(parts[p].log, hash, INIT, runs[p], on);
    }
  }

  /** A partition's column for a cell is there exactly when its row is. */
  lemma {:induction false} ColumnWithRow(hash: Hasher, parts: seq<Part>, runs: seq<seq<Action>>, on: bool, w: Time,
                                         c: CellKey, p: nat)
    requires AllRanWith(hash, parts, runs, on) && p < |parts|
    ensures var view := ViewAt(TablesOf(parts), w);
            SketchColumn(view, c, p).Some? <==> on && c in view[p]
  {
    hide Inv, Runs, Exec;
    RanIsSound(hash, parts, runs, on);
  }

  /** The rows of a cell, in any order, hold the sketches of all its people. */
  lemma {:induction false} SketchedIsEveryone(hash: Hasher, parts: seq<Part>, runs: seq<seq<Action>>, w: Time,
                                              c: CellKey, order: seq<nat>, u: User)
    requires AllRanWith(hash, parts, runs, true) && Within(order, |parts|)
    requires forall p: nat :: p in order <==> p in RowsFor(ViewAt(TablesOf(parts), w), c)
    ensures u in SketchedBy(parts, w, c, order) <==> u in EveryoneOf(parts, w, c)
  {
    hide Inv, Runs, Exec, AllRanWith, PeopleOf, EveryoneOf, SketchColumn, RowsAt;
    var view := ViewAt(TablesOf(parts), w);
    RanIsSound(hash, parts, runs, true);
    EveryoneMember(parts, w, c, u);
    forall p: nat | p < |parts| && u in PeopleOf(parts[p], w, c)
      ensures SketchColumn(view, c, p).Some? && p in order
    {
      SomeoneHasEntry(parts[p], w, c, u);
      RowsMatchLog(hash, parts[p], w, c);
      ColumnWithRow(hash, parts, runs, true, w, c, p);
    }
    if p: nat :| p < |parts| && u in PeopleOf(parts[p], w, c) {
      var i :| 0 <= i < |order| && order[i] == p;
      assert SketchColumn(view, c, order[i]).Some? && u in PeopleOf(parts[order[i]], w, c);
    }
  }

  /** `cell` counts the people of `c`: under its names, with the number of its
      events over all partitions, and, for its users, the estimate of the one
      sketch of all its people, or nobody where sketches were off. */
  ghost predicate CountsPeople(hash: Hasher, parts: seq<Part>, w: Time, c: CellKey, on: bool, estimate: Estimate,
                               cell: RawCell) {
    && cell.family == c.family && cell.wiki == c.wiki && cell.namespace == c.namespace
    && cell.events == EntriesTotal(parts, w, c)
    && if on then exists s :: Summarises(hash, s, EveryoneOf(parts, w, c)) && s.precision == 12
                              && cell.users == estimate(s)
       else cell.users == 0
  }

  /** Wherever a row exists, a sketch cell counts the cell's people. */
  lemma {:induction false} SketchCellCounts(hash: Hasher, parts: seq<Part>, runs: seq<seq<Action>>, on: bool, w: Time,
                                            c: CellKey, estimate: Estimate)
    requires AllRanWith(hash, parts, runs, on) && RowsFor(ViewAt(TablesOf(parts), w), c) != {}
    ensures CountsPeople(hash, parts, w, c, on, estimate, SketchCell(ViewAt(TablesOf(parts), w), c, estimate))
  {
    hide Inv, Runs, Exec, AllRanWith, MergeRows, SketchedBy, Summarises, SketchColumn, FirstToLast, EveryoneOf;
    hide ColumnSum, EntriesTotal;
    var view := ViewAt(TablesOf(parts), w);
    var order := FirstToLast(view, c, |view|);
    RanIsSound(hash, parts, runs, on);
    CountedEventsExact(hash, parts, w, c);
    FirstToLastMembers(view, c, |view|);
    MergeRowsAccumulates(hash, parts, w, c, order);
    var p := Pick(RowsFor(view, c));
    var i :| 0 <= i < |order| && order[i] == p;
    forall j | 0 <= j < |order|
      ensures SketchColumn(view, c, order[j]).Some? <==> on
    {
      assert order[j] in order;
      ColumnWithRow(hash, parts, runs, on, w, c, order[j]);
    }
    if on {
      forall u
        ensures u in SketchedBy(parts, w, c, order) <==> u in EveryoneOf(parts, w, c)
      {
        SketchedIsEveryone(hash, parts, runs, w, c, order, u);
      }
      assert SketchedBy(parts, w, c, order) == EveryoneOf(parts, w, c);
    }
  }

  /** One cell's rows, out of the rows of all children. */
  lemma {:induction false} OrderForMembers(rows: seq<(nat, CellKey)>, c: CellKey)
    requires forall i, j :: 0 <= i < j < |rows| ==> rows[i] != rows[j]
    ensures forall p :: p in OrderFor(rows, c) <==> (p, c) in rows
    ensures forall i, j :: 0 <= i < j < |OrderFor(rows, c)| ==> OrderFor(rows, c)[i] != OrderFor(rows, c)[j]
    decreases |rows|
  {
    if |rows| > 0 {
      var n := |rows| - 1;
      OrderForMembers(rows[..n], c);
      assert rows == rows[..n] + [rows[n]];
      assert rows[n] !in rows[..n];
    }
  }

  lemma {:induction false} OrderForEnumerates(view: seq<CellRows>, parent: CellKey, rows: seq<(nat, CellKey)>,
                                              c: CellKey)
    requires Enumerates(rows, SelectedRows(view, parent)) && MatchesWhere(parent, c)
    ensures Enumerates(OrderFor(rows, c), RowsFor(view, c))
  {
    hide MatchesWhere, OrderFor;
    OrderForMembers(rows, c);
    var order := OrderFor(rows, c);
    forall p: nat
      ensures p in RowsFor(view, c) <==> p in order
    {
      assert p in RowsFor(view, c) <==> (p, c) in SelectedRows(view, parent);
    }
  }

  function SketchCells(view: seq<CellRows>, order: seq<CellKey>, estimate: Estimate): (cells: seq<RawCell>)
    ensures |cells| == |order| && forall i :: 0 <= i < |cells| ==> cells[i] == SketchCell(view, order[i], estimate)
  {
    if |order| == 0 then [] else [SketchCell(view, order[0], estimate)] + SketchCells(view, order[1..], estimate)
  }

  lemma {:induction false} GroupedCellsAre(hash: Hasher, parts: seq<Part>, w: Time, parent: CellKey,
                                           rows: seq<(nat, CellKey)>, order: seq<CellKey>, estimate: Estimate,
                                           cells: seq<RawCell>)
    requires PartsSound(hash, parts) && GroupedCells(ViewAt(TablesOf(parts), w), parent, rows, order, estimate, cells)
    ensures cells == SketchCells(ViewAt(TablesOf(parts), w), order, estimate)
  {
    hide PartsSound, MatchesWhere, OrderFor, SketchCell, SketchCells, MergedCell, RowsFor;
    var view := ViewAt(TablesOf(parts), w);
    forall i | 0 <= i < |order|
      ensures cells[i] == SketchCell(view, order[i], estimate)
    {
      assert order[i] in Selected(view, parent);
      OrderForEnumerates(view, parent, rows, order[i]);
      MergedCellIs(hash, parts, w, order[i], OrderFor(rows, order[i]), estimate, cells[i]);
    }
  }

  // ---------- The queries ----------

  /** `fetch_cell_hll`: the rows in the order given, events added up and sketches
      merged one by one. On reachable tables no merge can panic. */
  method FetchCellHll(ghost hash: Hasher, ghost parts: seq<Part>, ghost w: Time, view: seq<CellRows>, c: CellKey,
                      estimate: Estimate) returns (cell: Option<RawCell>)
    requires PartsSound(hash, parts) && view == ViewAt(TablesOf(parts), w)
    ensures ReadsCellHll(view, c, estimate, cell)
  {
    hide PartsSound, SketchColumn, CanMerge, MergeBytes, MergeRows, EventsInOrder;
    var order := ListAll(RowsFor(view, c));
    if |order| == 0 {
      return None;
    }
    assert order[0] in RowsFor(view, c);
    var events, merged := 0, None;
    NoRowsYet(view, c);
    for k := 0 to |order|
      invariant Within(order[..k], |view|) && events == EventsInOrder(view, c, order[..k])
      invariant MergeRows(view, c, order[..k]) == Merges(merged)
    {
      assert order[..k + 1] == order[..k] + [order[k]];
      OneMoreRow(hash, parts, w, c, order[..k], order[k]);
      events := events + EventsOf(view[order[k]], c);
      merged := MergeHllBytes(merged, SketchColumn(view, c, order[k]));
    }
    assert order[..|order|] == order;
    cell := Some(HllCell(c, events, merged, estimate));
    assert MergedCell(view, c, order, estimate, cell.value);
  }

  lemma {:induction false} NoRowsYet(view: seq<CellRows>, c: CellKey)
    ensures EventsInOrder(view, c, []) == 0 && MergeRows(view, c, []) == Merges(None)
  {
  }

  lemma {:induction false} OneMoreRow(hash: Hasher, parts: seq<Part>, w: Time, c: CellKey, order: seq<nat>, p: nat)
    requires PartsSound(hash, parts) && Within(order, |parts|) && p < |parts|
    ensures var view, longer := ViewAt(TablesOf(parts), w), order + [p];
            && MergeRows(view, c, order).Merges?
            && CanMerge(MergeRows(view, c, order).sketch, SketchColumn(view, c, p))
            && MergeRows(view, c, longer)
               == Merges(MergeBytes(MergeRows(view, c, order).sketch, SketchColumn(view, c, p)))
            && EventsInOrder(view, c, longer) == EventsInOrder(view, c, order) + EventsOf(view[p], c)
  {
    hide PartsSound, SketchedBy, SketchColumn, CanMerge, MergeBytes, Accumulates;
    assert (order + [p])[..|order|] == order;
    MergeRowsAccumulates(hash, parts, w, c, order + [p]);
  }

  /** The accumulators of the grouping loop after the first rows. */
  ghost predicate Grouped(view: seq<CellRows>, rows: seq<(nat, CellKey)>, grouped: map<CellKey, (nat, Option<Sketch>)>)
    requires RowsWithin(rows, |view|)
  {
    && (forall c :: c in grouped <==> exists i :: 0 <= i < |rows| && rows[i].1 == c)
    && (forall c :: c in grouped ==> GroupHolds(view, rows, c, grouped[c]))
  }

  ghost predicate GroupHolds(view: seq<CellRows>, rows: seq<(nat, CellKey)>, c: CellKey, entry: (nat, Option<Sketch>))
    requires RowsWithin(rows, |view|)
  {
    && entry.0 == EventsInOrder(view, c, OrderFor(rows, c))
    && MergeRows(view, c, OrderFor(rows, c)) == Merges(entry.1)
  }

  /** One row joins its group and leaves the others alone. */
  lemma {:induction false} GroupStep(view: seq<CellRows>, rows: seq<(nat, CellKey)>, row: (nat, CellKey), c: CellKey,
                                     entry: (nat, Option<Sketch>))
    requires RowsWithin(rows, |view|) && row.0 < |view| && GroupHolds(view, rows, c, entry)
    requires c == row.1 ==> MergeRows(view, c, OrderFor(rows + [row], c)).Merges?
    ensures c != row.1 ==> GroupHolds(view, rows + [row], c, entry)
    ensures c == row.1 ==>
              && CanMerge(entry.1, SketchColumn(view, c, row.0))
              && GroupHolds(view, rows + [row], c, (entry.0 + EventsOf(view[row.0], c),
                                                    MergeBytes(entry.1, SketchColumn(view, c, row.0))))
  {
    hide CanMerge, MergeBytes, SketchColumn, EventsOf;
    assert (rows + [row])[..|rows|] == rows;
    var order, longer := OrderFor(rows, c), OrderFor(rows + [row], c);
    if c == row.1 {
      assert longer[..|order|] == order;
    } else {
      assert longer == order;
    }
  }

  lemma {:induction false} GroupStarts(view: seq<CellRows>, rows: seq<(nat, CellKey)>, c: CellKey)
    requires RowsWithin(rows, |view|) && forall i :: 0 <= i < |rows| ==> rows[i].1 != c
    ensures GroupHolds(view, rows, c, (0, None))
    decreases |rows|
  {
    if |rows| > 0 {
      GroupStarts(view, rows[..|rows| - 1], c);
      assert OrderFor(rows, c) == OrderFor(rows[..|rows| - 1], c);
    }
  }

  function EntryFor(grouped: map<CellKey, (nat, Option<Sketch>)>, c: CellKey): (nat, Option<Sketch>) {
    if c in grouped then grouped[c] else (0, None)
  }

  /** The accumulators after one more row. */
  ghost function RowAdded(view: seq<CellRows>, row: (nat, CellKey), grouped: map<CellKey, (nat, Option<Sketch>)>):
      map<CellKey, (nat, Option<Sketch>)>
    requires row.0 < |view| && CanMerge(EntryFor(grouped, row.1).1, SketchColumn(view, row.1, row.0))
  {
    var (p, c) := row;
    var entry := EntryFor(grouped, c);
    grouped[c := (entry.0 + EventsOf(view[p], c), MergeBytes(entry.1, SketchColumn(view, c, p)))]
  }

  method AddRow(view: seq<CellRows>, row: (nat, CellKey), grouped: map<CellKey, (nat, Option<Sketch>)>)
      returns (r: map<CellKey, (nat, Option<Sketch>)>)
    requires row.0 < |view| && CanMerge(EntryFor(grouped, row.1).1, SketchColumn(view, row.1, row.0))
    ensures r == RowAdded(view, row, grouped)
  {
    var entry := EntryFor(grouped, row.1);
    var merged := MergeHllBytes(entry.1, SketchColumn(view, row.1, row.0));
    r := grouped[row.1 := (entry.0 + EventsOf(view[row.0], row.1), merged)];
  }

  /** The grouping loop of `fetch_children_hll`. */
  method GroupRows(ghost hash: Hasher, ghost parts: seq<Part>, ghost w: Time, view: seq<CellRows>,
                   rows: seq<(nat, CellKey)>) returns (grouped: map<CellKey, (nat, Option<Sketch>)>)
    requires PartsSound(hash, parts) && view == ViewAt(TablesOf(parts), w) && RowsWithin(rows, |view|)
    ensures Grouped(view, rows, grouped)
  {
    grouped := map[];
    assert Grouped(view, rows[..0], grouped);
    hide PartsSound, Grouped, SketchColumn, CanMerge, RowAdded;
    for k := 0 to |rows|
      invariant RowsWithin(rows[..k], |view|) && Grouped(view, rows[..k], grouped)
    {
      assert rows[..k + 1] == rows[..k] + [rows[k]];
      RowJoins(hash, parts, w, rows[..k], rows[k], grouped);
      grouped := AddRow(view, rows[k], grouped);
    }
    assert rows[..|rows|] == rows;
  }

  lemma {:induction false} RowJoins(hash: Hasher, parts: seq<Part>, w: Time, done: seq<(nat, CellKey)>,
                                    row: (nat, CellKey), grouped: map<CellKey, (nat, Option<Sketch>)>)
    requires PartsSound(hash, parts) && RowsWithin(done, |parts|) && row.0 < |parts|
    requires Grouped(ViewAt(TablesOf(parts), w), done, grouped)
    ensures var view := ViewAt(TablesOf(parts), w);
            && RowsWithin(done + [row], |view|)
            && CanMerge(EntryFor(grouped, row.1).1, SketchColumn(view, row.1, row.0))
            && Grouped(view, done + [row], RowAdded(view, row, grouped))
  {
    hide PartsSound, GroupHolds, SketchedBy, SketchColumn, CanMerge, MergeBytes, OrderFor, MergeRows;
    var view, c := ViewAt(TablesOf(parts), w), row.1;
    MergeRowsAccumulates(hash, parts, w, c, OrderFor(done + [row], c));
    if c !in grouped {
      GroupStarts(view, done, c);
    }
    GroupStep(view, done, row, c, EntryFor(grouped, c));
    GroupedStep(view, done, row, grouped, RowAdded(view, row, grouped));
  }

  lemma {:induction false} GroupedStep(view: seq<CellRows>, done: seq<(nat, CellKey)>, row: (nat, CellKey),
                                       before: map<CellKey, (nat, Option<Sketch>)>,
                                       after: map<CellKey, (nat, Option<Sketch>)>)
    requires RowsWithin(done, |view|) && row.0 < |view| && Grouped(view, done, before)
    requires row.1 in after && after == before[row.1 := after[row.1]]
    requires RowsWithin(done + [row], |view|) && GroupHolds(view, done + [row], row.1, after[row.1])
    ensures Grouped(view, done + [row], after)
  {
    hide GroupHolds, OrderFor, MergeRows;
    var rows := done + [row];
    assert rows[|done|] == row;
    assert forall i :: 0 <= i < |done| ==> rows[i] == done[i];
    forall c
      ensures c in after <==> exists i :: 0 <= i < |rows| && rows[i].1 == c
    {
      if c in before {
        var i :| 0 <= i < |done| && done[i].1 == c;
        assert rows[i].1 == c;
      }
    }
    forall c | c in after
      ensures GroupHolds(view, rows, c, after[c])
    {
      if c != row.1 {
        GroupStep(view, done, row, c, before[c]);
      }
    }
  }

  /** `fetch_children_hll`. */
  method FetchChildrenHll(ghost hash: Hasher, ghost parts: seq<Part>, ghost w: Time, view: seq<CellRows>,
                          parent: CellKey, estimate: Estimate) returns (cells: seq<RawCell>)
    requires PartsSound(hash, parts) && view == ViewAt(TablesOf(parts), w)
    ensures ReadsChildrenHll(view, parent, estimate, cells)
  {
    hide PartsSound, Grouped, MergedCell, OrderFor, MergeRows, MatchesWhere;
    var rows := ListAll(SelectedRows(view, parent));
    var grouped := GroupRows(hash, parts, w, view, rows);
    GroupsAreSelected(view, parent, rows, grouped);
    var order := ListAll(grouped.Keys);
    cells := [];
    for k := 0 to |order|
      invariant |cells| == k
      invariant forall i :: 0 <= i < k ==> MergedCell(view, order[i], OrderFor(rows, order[i]), estimate, cells[i])
    {
      var entry := grouped[order[k]];
      cells := cells + [HllCell(order[k], entry.0, entry.1, estimate)];
      HeldIsMerged(view, rows, grouped, order[k], estimate);
    }
    assert GroupedCells(view, parent, rows, order, estimate, cells);
  }

  lemma {:induction false} HeldIsMerged(view: seq<CellRows>, rows: seq<(nat, CellKey)>,
                                        grouped: map<CellKey, (nat, Option<Sketch>)>, c: CellKey, estimate: Estimate)
    requires RowsWithin(rows, |view|) && Grouped(view, rows, grouped) && c in grouped
    ensures MergedCell(view, c, OrderFor(rows, c), estimate, HllCell(c, grouped[c].0, grouped[c].1, estimate))
  {
  }

  lemma {:induction false} GroupsAreSelected(view: seq<CellRows>, parent: CellKey, rows: seq<(nat, CellKey)>,
                                             grouped: map<CellKey, (nat, Option<Sketch>)>)
    requires RowsWithin(rows, |view|) && Grouped(view, rows, grouped) && Enumerates(rows, SelectedRows(view, parent))
    ensures grouped.Keys == Selected(view, parent)
  {
    hide GroupHolds, MatchesWhere, OrderFor;
    forall c
      ensures c in grouped <==> c in Selected(view, parent)
    {
      if c in Selected(view, parent) {
        var p: nat :| p < |view| && c in view[p] && MatchesWhere(parent, c);
        assert (p, c) in SelectedRows(view, parent);
        var i :| 0 <= i < |rows| && rows[i] == (p, c);
        assert rows[i].1 == c;
      }
      if c in grouped {
        var i :| 0 <= i < |rows| && rows[i].1 == c;
        assert rows[i] in SelectedRows(view, parent);
      }
    }
  }
}
