/** The SQL side of the query API over every partition's tables:
    crates/query-api/src/db.rs. */
module Queries {
  import opened Collections
  import opened Windows
  import opened Hierarchy
  import opened Sketches
  import opened Aggregates
  import opened Storage
  import opened Protocol
  import opened Privacy

  /** One window's rows in one partition. */
  type CellRows = map<CellKey, Row>

  function RowsAt(table: Table, w: Time): CellRows {
    map key | key in table.rows && key.start == w :: key.cell := table.rows[key]
  }

  /** One window's rows, by partition. */
  function ViewAt(tables: seq<Table>, w: Time): (view: seq<CellRows>)
    ensures |view| == |tables| && forall p :: 0 <= p < |view| ==> view[p] == RowsAt(tables[p], w)
  {
    seq(|tables|, p requires 0 <= p < |tables| => RowsAt(tables[p], w))
  }

  function EventsOf(rows: CellRows, c: CellKey): nat {
    if c in rows then rows[c].events else 0
  }

  function UsersOf(rows: CellRows, c: CellKey): nat {
    if c in rows then rows[c].users else 0
  }

  /** SUM of a column over partitions, for one cell. */
  function ColumnSum(column: (CellRows, CellKey) -> nat, view: seq<CellRows>, c: CellKey): nat {
    if |view| == 0 then 0 else column(view[0], c) + ColumnSum(column, view[1..], c)
  }

  /** `fetch_cell`: the cell summed over partitions. */
  function FetchCell(view: seq<CellRows>, c: CellKey): RawCell {
    RawCell(c.family, c.wiki, c.namespace, ColumnSum(EventsOf, view, c), ColumnSum(UsersOf, view, c))
  }

  // ---------- fetch_children ----------

  /** The WHERE clause of `fetch_children`. */
  predicate MatchesWhere(parent: CellKey, c: CellKey) {
    && LEVEL_GLOBAL <= parent.level <= LEVEL_WIKI
    && c.level == parent.level + 1
    && (parent.level >= LEVEL_FAMILY ==> c.family == parent.family)
    && (parent.level >= LEVEL_WIKI ==> c.wiki == parent.wiki)
  }

  /** The SELECT list, which is also the GROUP BY, of `fetch_children`. */
  type Group = (string, string, int)

  function GroupOf(parent: CellKey, c: CellKey): Group {
    (c.family,
     if parent.level == LEVEL_GLOBAL then ROLLUP_STR else c.wiki,
     if parent.level < LEVEL_WIKI then ROLLUP_NAMESPACE else c.namespace)
  }

  /** The keys of the rows the query selects. */
  function Selected(view: seq<CellRows>, parent: CellKey): set<CellKey> {
    set p, c | 0 <= p < |view| && c in view[p] && MatchesWhere(parent, c) :: c
  }

  function Groups(view: seq<CellRows>, parent: CellKey): set<Group> {
    set c | c in Selected(view, parent) :: GroupOf(parent, c)
  }

  /** One partition's rows of a group. */
  function GroupKeys(rows: CellRows, parent: CellKey, g: Group): set<CellKey> {
    set c | c in rows && MatchesWhere(parent, c) && GroupOf(parent, c) == g
  }

  ghost function SumOver(column: (CellRows, CellKey) -> nat, rows: CellRows, keys: set<CellKey>): nat {
    if keys == {} then 0 else column(rows, Pick(keys)) + SumOver(column, rows, keys - {Pick(keys)})
  }

  /** SUM of a column over a group's rows in all partitions. */
  ghost function GroupSum(column: (CellRows, CellKey) -> nat, view: seq<CellRows>, parent: CellKey, g: Group): nat {
    if |view| == 0 then 0
    else SumOver(column, view[0], GroupKeys(view[0], parent, g)) + GroupSum(column, view[1..], parent, g)
  }

  ghost function FetchGroup(view: seq<CellRows>, parent: CellKey, g: Group): RawCell {
    RawCell(g.0, g.1, g.2, GroupSum(EventsOf, view, parent, g), GroupSum(UsersOf, view, parent, g))
  }

  /** `fetch_children`, given the order in which the database returns the groups. */
  ghost function FetchGroups(view: seq<CellRows>, parent: CellKey, order: seq<Group>): (cells: seq<RawCell>)
    ensures |cells| == |order| && forall i :: 0 <= i < |cells| ==> cells[i] == FetchGroup(view, parent, order[i])
  {
    if |order| == 0 then [] else [FetchGroup(view, parent, order[0])] + FetchGroups(view, parent, order[1..])
  }

  // ---------- The query against the hierarchy ----------

  /** The children of a cell, in the hierarchy, that any partition stored a row for. */
  function ChildKeys(view: seq<CellRows>, parent: CellKey): set<CellKey> {
    set p, c | 0 <= p < |view| && c in view[p] && Parent(c) == Some(parent) :: c
  }

  function FetchAll(view: seq<CellRows>, order: seq<CellKey>): (cells: seq<RawCell>)
    ensures |cells| == |order| && forall i :: 0 <= i < |cells| ==> cells[i] == FetchCell(view, order[i])
  {
    if |order| == 0 then [] else [FetchCell(view, order[0])] + FetchAll(view, order[1..])
  }

  /** The rolled-up columns of a key the aggregator writes. */
  predicate Canonical(c: CellKey) {
    && LEVEL_GLOBAL <= c.level <= LEVEL_NAMESPACE
    && (c.level <= LEVEL_WIKI ==> c.namespace == ROLLUP_NAMESPACE)
    && (c.level <= LEVEL_FAMILY ==> c.wiki == ROLLUP_STR)
    && (c.level == LEVEL_GLOBAL ==> c.family == ROLLUP_STR)
  }

  ghost predicate CanonicalView(view: seq<CellRows>) {
    forall p, c :: 0 <= p < |view| && c in view[p] ==> Canonical(c)
  }

  /** On the keys the aggregator writes, the query selects exactly the cell's
      children, one group each, and returns each child's own columns. */
  lemma {:induction false} ChildrenQueryExact(parent: CellKey, c: CellKey, d: CellKey)
    requires Canonical(parent) && Canonical(c) && Canonical(d)
    ensures MatchesWhere(parent, c) <==> Parent(c) == Some(parent)
    ensures MatchesWhere(parent, c) ==> GroupOf(parent, c) == (c.family, c.wiki, c.namespace)
    ensures MatchesWhere(parent, c) && MatchesWhere(parent, d) && GroupOf(parent, c) == GroupOf(parent, d) ==> c == d
  {
  }

  lemma {:induction false} EventCellsCanonical(e: Event)
    ensures forall c :: Contributes(e, c) ==> Canonical(c)
  {
  }

  /** An event is counted in exactly the canonical cells that agree with it on
      every dimension their level keeps. */
  lemma {:induction false} ContributesMeans(e: Event, c: CellKey)
    ensures Contributes(e, c) <==>
            && Canonical(c)
            && (c.level >= 1 ==> c.family == e.family)
            && (c.level >= 2 ==> c.wiki == e.wiki)
            && (c.level == 3 ==> c.namespace == e.namespace)
  {
  }

  /** The child a group stands for. */
  function KeyOf(parent: CellKey, g: Group): CellKey {
    CellKey(parent.level + 1, g.0, g.1, g.2)
  }

  function KeysOf(parent: CellKey, order: seq<Group>): (keys: seq<CellKey>)
    ensures |keys| == |order| && forall i :: 0 <= i < |keys| ==> keys[i] == KeyOf(parent, order[i])
  {
    if |order| == 0 then [] else [KeyOf(parent, order[0])] + KeysOf(parent, order[1..])
  }

  function GroupsOf(parent: CellKey, keys: seq<CellKey>): (order: seq<Group>)
    ensures |order| == |keys| && forall i :: 0 <= i < |order| ==> order[i] == GroupOf(parent, keys[i])
  {
    if |keys| == 0 then [] else [GroupOf(parent, keys[0])] + GroupsOf(parent, keys[1..])
  }

  lemma {:induction false} SelectedAreChildren(view: seq<CellRows>, parent: CellKey)
    requires CanonicalView(view) && Canonical(parent)
    ensures Selected(view, parent) == ChildKeys(view, parent)
    ensures forall c :: c in Selected(view, parent) ==> Canonical(c) && c == KeyOf(parent, GroupOf(parent, c))
  {
    hide MatchesWhere, GroupOf, Parent, Canonical;
    forall p, c | 0 <= p < |view| && c in view[p]
      ensures MatchesWhere(parent, c) <==> Parent(c) == Some(parent)
      ensures MatchesWhere(parent, c) ==> c == KeyOf(parent, GroupOf(parent, c))
    {
      ChildrenQueryExact(parent, c, c);
      ChildLevel(parent, c);
    }
  }

  lemma {:induction false} ChildLevel(parent: CellKey, c: CellKey)
    ensures MatchesWhere(parent, c) ==> c.level == parent.level + 1
  {
  }

  lemma {:induction false} GroupKeysAre(rows: CellRows, parent: CellKey, c: CellKey)
    requires Canonical(parent) && Canonical(c) && MatchesWhere(parent, c) && forall d :: d in rows ==> Canonical(d)
    ensures GroupKeys(rows, parent, GroupOf(parent, c)) == if c in rows then {c} else {}
  {
    hide MatchesWhere, GroupOf, Canonical;
    forall d | d in rows
      ensures MatchesWhere(parent, d) && GroupOf(parent, d) == GroupOf(parent, c) ==> d == c
    {
      ChildrenQueryExact(parent, c, d);
    }
  }

  /** A group's sum is its child's sum. */
  lemma {:induction false} GroupSumIs(column: (CellRows, CellKey) -> nat, view: seq<CellRows>, parent: CellKey,
                                      c: CellKey)
    requires CanonicalView(view) && Canonical(parent) && Canonical(c) && MatchesWhere(parent, c)
    requires forall rows, d :: d !in rows ==> column(rows, d) == 0
    ensures GroupSum(column, view, parent, GroupOf(parent, c)) == ColumnSum(column, view, c)
  {
    hide MatchesWhere, GroupOf, Canonical, GroupKeys;
    if |view| > 0 {
      GroupKeysAre(view[0], parent, c);
      assert forall p :: 0 <= p < |view[1..]| ==> view[1..][p] == view[p + 1];
      GroupSumIs(column, view[1..], parent, c);
      SumOverOne(column, view[0], c);
    }
  }

  lemma {:induction false} SumOverOne(column: (CellRows, CellKey) -> nat, rows: CellRows, c: CellKey)
    ensures SumOver(column, rows, {c}) == column(rows, c) && SumOver(column, rows, {}) == 0
  {
    assert Pick({c}) == c;
    assert {c} - {c} == {};
  }

  lemma {:induction false} FetchGroupIs(view: seq<CellRows>, parent: CellKey, c: CellKey)
    requires CanonicalView(view) && Canonical(parent) && c in Selected(view, parent)
    ensures FetchGroup(view, parent, GroupOf(parent, c)) == FetchCell(view, c)
  {
    hide GroupSum, ColumnSum;
    GroupSumIs(EventsOf, view, parent, c);
    GroupSumIs(UsersOf, view, parent, c);
    ChildrenQueryExact(parent, c, c);
  }

  /** On canonical keys the query returns the cell's children in the hierarchy,
      each once, with its own sums. */
  lemma {:induction false} QueryReturnsChildren(view: seq<CellRows>, parent: CellKey, order: seq<Group>)
    requires CanonicalView(view) && Canonical(parent) && Enumerates(order, Groups(view, parent))
    ensures Enumerates(KeysOf(parent, order), ChildKeys(view, parent))
    ensures FetchGroups(view, parent, order) == FetchAll(view, KeysOf(parent, order))
  {
    hide MatchesWhere, GroupOf, FetchGroup, FetchCell, ChildKeys, Selected, FetchAll, FetchGroups;
    var keys := KeysOf(parent, order);
    SelectedAreChildren(view, parent);
    forall i | 0 <= i < |order|
      ensures keys[i] in ChildKeys(view, parent) && FetchGroup(view, parent, order[i]) == FetchCell(view, keys[i])
    {
      assert order[i] in Groups(view, parent);
      var c :| c in Selected(view, parent) && GroupOf(parent, c) == order[i];
      FetchGroupIs(view, parent, c);
    }
    forall c | c in ChildKeys(view, parent)
      ensures c in keys
    {
      assert GroupOf(parent, c) in order;
      var i :| 0 <= i < |order| && order[i] == GroupOf(parent, c);
      assert keys[i] == c;
    }
    assert FetchGroups(view, parent, order) == FetchAll(view, keys);
  }

  /** Every order of the children is an order of the groups. */
  lemma {:induction false} ChildrenAreGroups(view: seq<CellRows>, parent: CellKey, keys: seq<CellKey>)
    requires CanonicalView(view) && Canonical(parent) && Enumerates(keys, Selected(view, parent))
    ensures Enumerates(GroupsOf(parent, keys), Groups(view, parent))
    ensures FetchGroups(view, parent, GroupsOf(parent, keys)) == FetchAll(view, keys)
  {
    hide MatchesWhere, GroupOf, FetchGroup, FetchCell, ChildKeys, Selected, FetchAll, FetchGroups;
    var order := GroupsOf(parent, keys);
    SelectedAreChildren(view, parent);
    forall i | 0 <= i < |keys|
      ensures keys[i] == KeyOf(parent, order[i]) && FetchGroup(view, parent, order[i]) == FetchCell(view, keys[i])
    {
      FetchGroupIs(view, parent, keys[i]);
    }
    forall g | g in Groups(view, parent)
      ensures g in order
    {
      var c :| c in Selected(view, parent) && GroupOf(parent, c) == g;
      var i :| 0 <= i < |keys| && keys[i] == c;
      assert order[i] == g;
    }
    assert FetchGroups(view, parent, order) == FetchAll(view, keys);
  }

  // ---------- One partition's rows against its log ----------

  /** A partition: its log and the state of its protocol. */
  datatype Part = Part(log: Log, state: State)

  function TablesOf(parts: seq<Part>): (tables: seq<Table>)
    ensures |tables| == |parts| && forall p :: 0 <= p < |tables| ==> tables[p] == parts[p].state.table
  {
    seq(|parts|, p requires 0 <= p < |parts| => parts[p].state.table)
  }

  ghost predicate PartsSound(hash: Hasher, parts: seq<Part>) {
    forall p :: 0 <= p < |parts| ==> Inv(parts[p].log, hash, parts[p].state)
  }

  /** Every partition goes on from `before`, each by a run of its own. */
  ghost predicate PartsRun(hash: Hasher, before: seq<Part>, runs: seq<seq<Action>>, after: seq<Part>) {
    && |before| == |runs| == |after|
    && forall p :: 0 <= p < |before| ==>
         && Runs(before[p].log, hash, before[p].state, runs[p])
         && after[p] == Part(before[p].log, Exec(before[p].log, hash, before[p].state, runs[p]))
  }

  lemma {:induction false} PartsRunSound(hash: Hasher, before: seq<Part>, runs: seq<seq<Action>>, after: seq<Part>)
    requires PartsSound(hash, before) && PartsRun(hash, before, runs, after)
    ensures PartsSound(hash, after)
  {
    hide Inv, Runs, Exec;
    forall p | 0 <= p < |after|
      ensures Inv(after[p].log, hash, after[p].state)
    {
      RunInv(before[p].log, hash, before[p].state, runs[p]);
    }
  }

  /** The log position up to which a partition's rows for `w` count. */
  function PositionOf(part: Part, w: Time): nat {
    if w in part.state.trace.taken then part.state.trace.taken[w] else 0
  }

  function EntriesOf(part: Part, w: Time, c: CellKey): set<int> {
    CountedIn(part.log, PositionOf(part, w), w, c)
  }

  function PeopleOf(part: Part, w: Time, c: CellKey): set<User> {
    UsersIn(part.log, PositionOf(part, w), w, c)
  }

  lemma {:induction false} RowsMatchLog(hash: Hasher, part: Part, w: Time, c: CellKey)
    requires Inv(part.log, hash, part.state)
    ensures var rows := RowsAt(part.state.table, w);
            && (c in rows <==> EntriesOf(part, w, c) != {})
            && EventsOf(rows, c) == |EntriesOf(part, w, c)|
            && UsersOf(rows, c) == |PeopleOf(part, w, c)|
            && (c in rows ==> Encodes(hash, rows[c].hll, PeopleOf(part, w, c)))
  {
  }

  /** Every key of a reachable table is the key of an event, so it is canonical. */
  lemma {:induction false} ReachableCanonical(hash: Hasher, parts: seq<Part>, w: Time)
    requires PartsSound(hash, parts)
    ensures CanonicalView(ViewAt(TablesOf(parts), w))
  {
    hide Inv, RowsAt, Contributes, WindowStart;
    var view := ViewAt(TablesOf(parts), w);
    forall p, c | 0 <= p < |view| && c in view[p]
      ensures Canonical(c)
    {
      RowsMatchLog(hash, parts[p], w, c);
      var i := Pick(EntriesOf(parts[p], w, c));
      EventCellsCanonical(parts[p].log[i].value);
    }
  }

  // ---------- Hierarchy conservation ----------

  /** The counted entries that fall in any of the listed cells. */
  function EntriesUnder(log: Log, n: nat, w: Time, order: seq<CellKey>): set<int> {
    if |order| == 0 then {} else CountedIn(log, n, w, order[0]) + EntriesUnder(log, n, w, order[1..])
  }

  function PeopleUnder(log: Log, n: nat, w: Time, order: seq<CellKey>): set<User> {
    if |order| == 0 then {} else UsersIn(log, n, w, order[0]) + PeopleUnder(log, n, w, order[1..])
  }

  lemma {:induction false} EntriesUnderMember(log: Log, n: nat, w: Time, order: seq<CellKey>, i: int)
    ensures i in EntriesUnder(log, n, w, order) <==> exists c :: c in order && i in CountedIn(log, n, w, c)
  {
    if |order| > 0 {
      EntriesUnderMember(log, n, w, order[1..], i);
      assert forall c :: c in order <==> c == order[0] || c in order[1..];
    }
  }

  lemma {:induction false} PeopleUnderMember(log: Log, n: nat, w: Time, order: seq<CellKey>, u: User)
    ensures u in PeopleUnder(log, n, w, order) <==> exists c :: c in order && u in UsersIn(log, n, w, c)
  {
    if |order| > 0 {
      PeopleUnderMember(log, n, w, order[1..], u);
      assert forall c :: c in order <==> c == order[0] || c in order[1..];
    }
  }

  lemma {:induction false} SiblingsDisjoint(log: Log, n: nat, w: Time, parent: CellKey, c: CellKey, rest: seq<CellKey>)
    requires parent.level < LEVEL_NAMESPACE && Parent(c) == Some(parent) && c !in rest
    requires forall d :: d in rest ==> Parent(d) == Some(parent)
    ensures CountedIn(log, n, w, c) !! EntriesUnder(log, n, w, rest)
  {
    hide WindowStart, Contributes, Parent, EntriesUnder;
    forall i | i in CountedIn(log, n, w, c)
      ensures i !in EntriesUnder(log, n, w, rest)
    {
      EntriesUnderMember(log, n, w, rest, i);
      OneChildPerEvent(log[i].value, parent);
    }
  }

  /** Sum of a column over listed cells, in one partition. */
  function RowSum(column: (CellRows, CellKey) -> nat, rows: CellRows, order: seq<CellKey>): nat {
    if |order| == 0 then 0 else column(rows, order[0]) + RowSum(column, rows, order[1..])
  }

  /** Siblings share no entry, so their counts add up; they may share users,
      so their user counts add up to at least the distinct users. */
  lemma {:induction false} SiblingsAdd(log: Log, n: nat, w: Time, parent: CellKey, order: seq<CellKey>, rows: CellRows)
    requires parent.level < LEVEL_NAMESPACE
    requires forall i, j :: 0 <= i < j < |order| ==> order[i] != order[j]
    requires forall c :: c in order ==> Parent(c) == Some(parent)
    requires forall c :: EventsOf(rows, c) == |CountedIn(log, n, w, c)| && UsersOf(rows, c) == |UsersIn(log, n, w, c)|
    ensures RowSum(EventsOf, rows, order) == |EntriesUnder(log, n, w, order)|
    ensures RowSum(UsersOf, rows, order) >= |PeopleUnder(log, n, w, order)|
  {
    hide CountedIn, UsersIn, Parent, EventsOf, UsersOf;
    if |order| > 0 {
      assert order[0] !in order[1..];
      SiblingsDisjoint(log, n, w, parent, order[0], order[1..]);
      SiblingsAdd(log, n, w, parent, order[1..], rows);
    }
  }

  /** The children of a cell, listed without gaps, partition its entries and
      cover its users. */
  lemma {:induction false} ChildrenCover(log: Log, n: nat, w: Time, parent: CellKey, order: seq<CellKey>)
    requires parent.level < LEVEL_NAMESPACE
    requires forall c :: c in order ==> Parent(c) == Some(parent)
    requires forall c :: Parent(c) == Some(parent) && CountedIn(log, n, w, c) != {} ==> c in order
    ensures EntriesUnder(log, n, w, order) == CountedIn(log, n, w, parent)
    ensures PeopleUnder(log, n, w, order) == UsersIn(log, n, w, parent)
  {
    hide WindowStart, Contributes, Parent, EntriesUnder, PeopleUnder;
    forall i
      ensures i in EntriesUnder(log, n, w, order) <==> i in CountedIn(log, n, w, parent)
    {
      EntriesUnderMember(log, n, w, order, i);
      if 0 <= i < n && FirstInWindow(log, i, w) {
        OneChildPerEvent(log[i].value, parent);
        if i in CountedIn(log, n, w, parent) {
          var c :| Contributes(log[i].value, c) && Parent(c) == Some(parent);
          assert i in CountedIn(log, n, w, c);
        }
      }
    }
    assert EntriesUnder(log, n, w, order) == CountedIn(log, n, w, parent);
    forall u
      ensures u in PeopleUnder(log, n, w, order) <==> u in UsersIn(log, n, w, parent)
    {
      PeopleUnderMember(log, n, w, order, u);
      if u in UsersIn(log, n, w, parent) {
        var i :| i in CountedIn(log, n, w, parent) && log[i].value.user == u;
        EntriesUnderMember(log, n, w, order, i);
      }
      if u in PeopleUnder(log, n, w, order) {
        var c :| c in order && u in UsersIn(log, n, w, c);
        var i :| i in CountedIn(log, n, w, c) && log[i].value.user == u;
        EntriesUnderMember(log, n, w, order, i);
      }
    }
  }

  /** One partition's rows: a parent's events are the sum over its children, and
      its users lie between the largest child and the sum of the children. */
  lemma {:induction false} PartConserves(hash: Hasher, part: Part, w: Time, parent: CellKey, order: seq<CellKey>)
    requires Inv(part.log, hash, part.state) && parent.level < LEVEL_NAMESPACE
    requires forall i, j :: 0 <= i < j < |order| ==> order[i] != order[j]
    requires forall c :: c in order ==> Parent(c) == Some(parent)
    requires forall c :: c in RowsAt(part.state.table, w) && Parent(c) == Some(parent) ==> c in order
    ensures PartitionConserved(RowsAt(part.state.table, w), parent, order)
  {
    hide Inv, CountedIn, UsersIn, Parent, RowsAt, EventsOf, UsersOf, EntriesUnder, PeopleUnder;
    var rows, n := RowsAt(part.state.table, w), PositionOf(part, w);
    forall c
      ensures c in rows <==> CountedIn(part.log, n, w, c) != {}
      ensures EventsOf(rows, c) == |CountedIn(part.log, n, w, c)|
      ensures UsersOf(rows, c) == |UsersIn(part.log, n, w, c)|
    {
      RowsMatchLog(hash, part, w, c);
    }
    ChildrenCover(part.log, n, w, parent, order);
    SiblingsAdd(part.log, n, w, parent, order, rows);
    forall c | c in order
      ensures UsersOf(rows, c) <= UsersOf(rows, parent)
    {
      forall u | u in UsersIn(part.log, n, w, c)
        ensures u in UsersIn(part.log, n, w, parent)
      {
        PeopleUnderMember(part.log, n, w, order, u);
      }
      SubsetCard(UsersIn(part.log, n, w, c), UsersIn(part.log, n, w, parent));
    }
  }

  /** Sum of a column over partitions and listed cells. */
  function GridSum(column: (CellRows, CellKey) -> nat, view: seq<CellRows>, order: seq<CellKey>): nat {
    if |view| == 0 then 0 else RowSum(column, view[0], order) + GridSum(column, view[1..], order)
  }

  lemma {:induction false} GridSumByCell(column: (CellRows, CellKey) -> nat, view: seq<CellRows>, order: seq<CellKey>)
    requires |order| > 0
    ensures GridSum(column, view, order) == ColumnSum(column, view, order[0]) + GridSum(column, view, order[1..])
  {
    if |view| > 0 {
      GridSumByCell(column, view[1..], order);
    }
  }

  lemma {:induction false} GridSumOfNothing(column: (CellRows, CellKey) -> nat, view: seq<CellRows>)
    ensures GridSum(column, view, []) == 0
  {
    if |view| > 0 {
      GridSumOfNothing(column, view[1..]);
    }
  }

  /** Summing children then partitions is summing partitions then children. */
  lemma {:induction false} FetchAllTotals(view: seq<CellRows>, order: seq<CellKey>)
    ensures TotalEvents(FetchAll(view, order)) == GridSum(EventsOf, view, order)
    ensures TotalUsers(FetchAll(view, order)) == GridSum(UsersOf, view, order)
  {
    hide EventsOf, UsersOf, ColumnSum, GridSum;
    if |order| == 0 {
      GridSumOfNothing(EventsOf, view);
      GridSumOfNothing(UsersOf, view);
    } else {
      FetchAllTotals(view, order[1..]);
      GridSumByCell(EventsOf, view, order);
      GridSumByCell(UsersOf, view, order);
      assert FetchAll(view, order)[1..] == FetchAll(view, order[1..]);
    }
  }

  /** A per-partition bound on a column survives summing over partitions. */
  lemma {:induction false} ColumnBounds(column: (CellRows, CellKey) -> nat, view: seq<CellRows>, parent: CellKey,
                                        order: seq<CellKey>)
    requires forall p :: 0 <= p < |view| ==> column(view[p], parent) <= RowSum(column, view[p], order)
    ensures ColumnSum(column, view, parent) <= GridSum(column, view, order)
    ensures (forall p :: 0 <= p < |view| ==> column(view[p], parent) == RowSum(column, view[p], order)) ==>
              ColumnSum(column, view, parent) == GridSum(column, view, order)
  {
    if |view| > 0 {
      assert forall p :: 0 <= p < |view[1..]| ==> view[1..][p] == view[p + 1];
      ColumnBounds(column, view[1..], parent, order);
    }
  }

  lemma {:induction false} ColumnMonotone(column: (CellRows, CellKey) -> nat, view: seq<CellRows>, c: CellKey,
                                          d: CellKey)
    requires forall p :: 0 <= p < |view| ==> column(view[p], c) <= column(view[p], d)
    ensures ColumnSum(column, view, c) <= ColumnSum(column, view, d)
  {
    if |view| > 0 {
      assert forall p :: 0 <= p < |view[1..]| ==> view[1..][p] == view[p + 1];
      ColumnMonotone(column, view[1..], c, d);
    }
  }

  predicate Conserved(whole: RawCell, children: seq<RawCell>) {
    && TotalEvents(children) == whole.events
    && whole.users <= TotalUsers(children)
    && forall i :: 0 <= i < |children| ==> children[i].users <= whole.users
  }

  ghost predicate PartitionConserved(rows: CellRows, parent: CellKey, order: seq<CellKey>) {
    && EventsOf(rows, parent) == RowSum(EventsOf, rows, order)
    && UsersOf(rows, parent) <= RowSum(UsersOf, rows, order)
    && forall c :: c in order ==> UsersOf(rows, c) <= UsersOf(rows, parent)
  }

  lemma {:induction false} ViewConserves(view: seq<CellRows>, parent: CellKey, order: seq<CellKey>)
    requires forall p :: 0 <= p < |view| ==> PartitionConserved(view[p], parent, order)
    ensures Conserved(FetchCell(view, parent), FetchAll(view, order))
  {
    hide EventsOf, UsersOf, FetchAll;
    FetchAllTotals(view, order);
    ColumnBounds(EventsOf, view, parent, order);
    ColumnBounds(UsersOf, view, parent, order);
    forall i | 0 <= i < |order|
      ensures ColumnSum(UsersOf, view, order[i]) <= ColumnSum(UsersOf, view, parent)
    {
      assert order[i] in order;
      ColumnMonotone(UsersOf, view, order[i], parent);
    }
  }

  lemma {:induction false} ChildrenConserve(hash: Hasher, parts: seq<Part>, w: Time, parent: CellKey,
                                            order: seq<CellKey>)
    requires PartsSound(hash, parts) && parent.level < LEVEL_NAMESPACE
    requires Enumerates(order, ChildKeys(ViewAt(TablesOf(parts), w), parent))
    ensures var view := ViewAt(TablesOf(parts), w); Conserved(FetchCell(view, parent), FetchAll(view, order))
  {
    hide Inv, RowsAt, EventsOf, UsersOf, Parent;
    var view := ViewAt(TablesOf(parts), w);
    forall p | 0 <= p < |view|
      ensures PartitionConserved(view[p], parent, order)
    {
      PartConserves(hash, parts[p], w, parent, order);
    }
    ViewConserves(view, parent, order);
  }

  /** Conservation reaches suppression: of what the two queries return, over any
      number of partitions in any reachable states, the parent's events equal
      the children's, its users lie between the largest child and the children's
      sum, and the residual `suppress` computes is zero. */
  lemma {:induction false} ConservedAcrossPartitions(hash: Hasher, parts: seq<Part>, w: Time, parent: CellKey,
                                                     order: seq<Group>)
    requires PartsSound(hash, parts) && Canonical(parent) && parent.level < LEVEL_NAMESPACE
    requires Enumerates(order, Groups(ViewAt(TablesOf(parts), w), parent))
    ensures var view := ViewAt(TablesOf(parts), w);
            && Conserved(FetchCell(view, parent), FetchGroups(view, parent, order))
            && SaturatingSub(FetchCell(view, parent).users, TotalUsers(FetchGroups(view, parent, order))) == 0
  {
    hide PartsSound, Groups, ChildKeys, FetchGroups, FetchAll, Canonical, CanonicalView;
    var view := ViewAt(TablesOf(parts), w);
    ReachableCanonical(hash, parts, w);
    QueryReturnsChildren(view, parent, order);
    ChildrenConserve(hash, parts, w, parent, KeysOf(parent, order));
  }

  // ---------- Cross-partition exactness ----------

  /** The partitioner sends all of a user's events to one partition. */
  ghost predicate Routed(parts: seq<Part>) {
    forall p, q, i, j :: 0 <= p < q < |parts| && IsEvent(parts[p].log, i) && IsEvent(parts[q].log, j) ==>
      parts[p].log[i].value.user != parts[q].log[j].value.user
  }

  /** Everyone counted for a cell, over all partitions. */
  function EveryoneOf(parts: seq<Part>, w: Time, c: CellKey): set<User> {
    if |parts| == 0 then {} else PeopleOf(parts[0], w, c) + EveryoneOf(parts[1..], w, c)
  }

  /** How many events were counted for a cell, over all partitions. */
  function EntriesTotal(parts: seq<Part>, w: Time, c: CellKey): nat {
    if |parts| == 0 then 0 else |EntriesOf(parts[0], w, c)| + EntriesTotal(parts[1..], w, c)
  }

  /** The SQL sum of events is the number of events counted. */
  lemma {:induction false} CountedEventsExact(hash: Hasher, parts: seq<Part>, w: Time, c: CellKey)
    requires PartsSound(hash, parts)
    ensures ColumnSum(EventsOf, ViewAt(TablesOf(parts), w), c) == EntriesTotal(parts, w, c)
    decreases |parts|
  {
    hide Inv, EntriesOf, RowsAt, EventsOf;
    if |parts| > 0 {
      var view, rest := ViewAt(TablesOf(parts), w), ViewAt(TablesOf(parts[1..]), w);
      RowsMatchLog(hash, parts[0], w, c);
      CountedEventsExact(hash, parts[1..], w, c);
      assert view[1..] == rest;
    }
  }

  lemma {:induction false} EveryoneIsSomewhere(parts: seq<Part>, w: Time, c: CellKey, u: User) returns (p: nat, i: int)
    requires u in EveryoneOf(parts, w, c)
    ensures p < |parts| && IsEvent(parts[p].log, i) && parts[p].log[i].value.user == u
  {
    hide WindowStart;
    if u in PeopleOf(parts[0], w, c) {
      p := 0;
      i :| i in EntriesOf(parts[0], w, c) && parts[0].log[i].value.user == u;
    } else {
      p, i := EveryoneIsSomewhere(parts[1..], w, c, u);
      p := p + 1;
    }
  }

  lemma {:induction false} PartitionsDisjoint(parts: seq<Part>, w: Time, c: CellKey)
    requires Routed(parts) && |parts| > 0
    ensures PeopleOf(parts[0], w, c) !! EveryoneOf(parts[1..], w, c)
  {
    hide WindowStart, EveryoneOf;
    forall u, v | u in PeopleOf(parts[0], w, c) && v in EveryoneOf(parts[1..], w, c)
      ensures u != v
    {
      var i :| i in EntriesOf(parts[0], w, c) && parts[0].log[i].value.user == u;
      var p, j := EveryoneIsSomewhere(parts[1..], w, c, v);
      assert parts[1..][p] == parts[p + 1];
    }
  }

  /** With users routed to partitions, the SQL sum of per-partition distinct
      counts is the number of distinct users over all partitions. */
  lemma {:induction false} DistinctUsersExact(hash: Hasher, parts: seq<Part>, w: Time, c: CellKey)
    requires PartsSound(hash, parts) && Routed(parts)
    ensures FetchCell(ViewAt(TablesOf(parts), w), c).users == |EveryoneOf(parts, w, c)|
    decreases |parts|
  {
    hide Inv, PeopleOf, RowsAt, UsersOf;
    if |parts| > 0 {
      var view, rest := ViewAt(TablesOf(parts), w), ViewAt(TablesOf(parts[1..]), w);
      RowsMatchLog(hash, parts[0], w, c);
      PartitionsDisjoint(parts, w, c);
      DistinctUsersExact(hash, parts[1..], w, c);
      assert view[1..] == rest;
    }
  }

  lemma {:induction false} EveryoneMember(parts: seq<Part>, w: Time, c: CellKey, u: User)
    ensures u in EveryoneOf(parts, w, c) <==> exists p :: 0 <= p < |parts| && u in PeopleOf(parts[p], w, c)
    decreases |parts|
  {
    hide PeopleOf;
    if |parts| > 0 {
      EveryoneMember(parts[1..], w, c, u);
      assert forall p :: 1 <= p < |parts| ==> parts[p] == parts[1..][p - 1];
      if u in EveryoneOf(parts[1..], w, c) {
        var p :| 0 <= p < |parts[1..]| && u in PeopleOf(parts[1..][p], w, c);
        assert u in PeopleOf(parts[p + 1], w, c);
      }
    }
  }

  /** Within a partition, a cell's people are those of its stored children. */
  lemma {:induction false} PeopleOfChildren(hash: Hasher, part: Part, w: Time, parent: CellKey, u: User)
    requires Inv(part.log, hash, part.state) && parent.level < LEVEL_NAMESPACE
    ensures u in PeopleOf(part, w, parent) <==>
            exists c :: c in RowsAt(part.state.table, w) && Parent(c) == Some(parent) && u in PeopleOf(part, w, c)
  {
    hide Inv, Parent, RowsAt, PeopleOf;
    if u in PeopleOf(part, w, parent) {
      var c := ChildWith(part, w, parent, u);
      SomeoneHasEntry(part, w, c, u);
      RowsMatchLog(hash, part, w, c);
    }
    if c :| c in RowsAt(part.state.table, w) && Parent(c) == Some(parent) && u in PeopleOf(part, w, c) {
      ParentWith(part, w, parent, c, u);
    }
  }

  lemma {:induction false} ChildWith(part: Part, w: Time, parent: CellKey, u: User) returns (c: CellKey)
    requires parent.level < LEVEL_NAMESPACE && u in PeopleOf(part, w, parent)
    ensures Parent(c) == Some(parent) && u in PeopleOf(part, w, c)
  {
    hide WindowStart, Parent, Contributes;
    var i :| i in EntriesOf(part, w, parent) && part.log[i].value.user == u;
    OneChildPerEvent(part.log[i].value, parent);
    c :| Contributes(part.log[i].value, c) && Parent(c) == Some(parent);
    assert i in EntriesOf(part, w, c);
  }

  lemma {:induction false} ParentWith(part: Part, w: Time, parent: CellKey, c: CellKey, u: User)
    requires parent.level < LEVEL_NAMESPACE && Parent(c) == Some(parent) && u in PeopleOf(part, w, c)
    ensures u in PeopleOf(part, w, parent)
  {
    hide WindowStart, Parent, Contributes;
    var i :| i in EntriesOf(part, w, c) && part.log[i].value.user == u;
    OneChildPerEvent(part.log[i].value, parent);
    assert i in EntriesOf(part, w, parent);
  }

  /** Over all partitions, a cell's people are those of its stored children. */
  lemma {:induction false} EveryoneOfChildren(hash: Hasher, parts: seq<Part>, w: Time, parent: CellKey, u: User)
    requires PartsSound(hash, parts) && parent.level < LEVEL_NAMESPACE
    ensures u in EveryoneOf(parts, w, parent) <==>
            exists c :: c in ChildKeys(ViewAt(TablesOf(parts), w), parent) && u in EveryoneOf(parts, w, c)
  {
    hide Inv, PeopleOf, Parent, RowsAt, EveryoneOf;
    var view := ViewAt(TablesOf(parts), w);
    EveryoneMember(parts, w, parent, u);
    if u in EveryoneOf(parts, w, parent) {
      var p :| 0 <= p < |parts| && u in PeopleOf(parts[p], w, parent);
      PeopleOfChildren(hash, parts[p], w, parent, u);
      var c :| c in RowsAt(parts[p].state.table, w) && Parent(c) == Some(parent) && u in PeopleOf(parts[p], w, c);
      assert c in view[p];
      EveryoneMember(parts, w, c, u);
    }
    if c :| c in ChildKeys(view, parent) && u in EveryoneOf(parts, w, c) {
      EveryoneMember(parts, w, c, u);
      var p :| 0 <= p < |parts| && u in PeopleOf(parts[p], w, c);
      RowsMatchLog(hash, parts[p], w, c);
      SomeoneHasEntry(parts[p], w, c, u);
      PeopleOfChildren(hash, parts[p], w, parent, u);
    }
  }

  lemma {:induction false} SomeoneHasEntry(part: Part, w: Time, c: CellKey, u: User)
    requires u in PeopleOf(part, w, c)
    ensures EntriesOf(part, w, c) != {}
  {
    hide CountedIn;
  }

  // ---------- Width of the sums ----------

  /** Every user of a cell has an event in it. */
  lemma {:induction false} UsersAtMostEvents(hash: Hasher, parts: seq<Part>, w: Time, c: CellKey)
    requires PartsSound(hash, parts)
    ensures FetchCell(ViewAt(TablesOf(parts), w), c).users <= FetchCell(ViewAt(TablesOf(parts), w), c).events
    decreases |parts|
  {
    hide Inv, RowsAt, UsersOf, EventsOf;
    if |parts| > 0 {
      var view, rest := ViewAt(TablesOf(parts), w), ViewAt(TablesOf(parts[1..]), w);
      RowsMatchLog(hash, parts[0], w, c);
      PeopleAtMostEntries(parts[0], w, c);
      UsersAtMostEvents(hash, parts[1..], w, c);
      assert view[1..] == rest;
    }
  }

  lemma {:induction false} PeopleAtMostEntries(part: Part, w: Time, c: CellKey)
    ensures |PeopleOf(part, w, c)| <= |EntriesOf(part, w, c)|
  {
    var entries := EntriesOf(part, w, c);
    assert forall i :: i in entries ==> IsEvent(part.log, i);
    hide CountedIn;
    var userAt := (i: int) => if IsEvent(part.log, i) then part.log[i].value.user else "";
    ImageAtMost(entries, userAt);
    assert PeopleOf(part, w, c) == ImageOf(entries, userAt);
  }

  const BIGINT_LIMIT: nat := 0x8000_0000_0000_0000

  /** What the casts of the queries' sums to `bigint` demand. */
  ghost predicate FitsBigint(view: seq<CellRows>) {
    forall c :: ColumnSum(EventsOf, view, c) < BIGINT_LIMIT
  }

  lemma {:induction false} UsersAtMostEventsAll(hash: Hasher, parts: seq<Part>, w: Time, order: seq<CellKey>)
    requires PartsSound(hash, parts)
    ensures TotalUsers(FetchAll(ViewAt(TablesOf(parts), w), order))
         <= TotalEvents(FetchAll(ViewAt(TablesOf(parts), w), order))
    decreases |order|
  {
    hide FetchCell, PartsSound;
    var view := ViewAt(TablesOf(parts), w);
    if |order| > 0 {
      UsersAtMostEvents(hash, parts, w, order[0]);
      UsersAtMostEventsAll(hash, parts, w, order[1..]);
      assert FetchAll(view, order)[1..] == FetchAll(view, order[1..]);
    }
  }

  /** If the parent's sum fits the cast, every sum `suppress` makes fits `u64`. */
  lemma {:induction false} ExactSumsFit(hash: Hasher, parts: seq<Part>, w: Time, parent: CellKey, order: seq<CellKey>)
    requires PartsSound(hash, parts) && parent.level < LEVEL_NAMESPACE && FitsBigint(ViewAt(TablesOf(parts), w))
    requires Enumerates(order, ChildKeys(ViewAt(TablesOf(parts), w), parent))
    ensures var view := ViewAt(TablesOf(parts), w);
            && Population(FetchCell(view, parent).users, FetchAll(view, order)) < U64_LIMIT
            && TotalEvents(FetchAll(view, order)) < U64_LIMIT
  {
    hide PartsSound, ChildKeys, FetchAll, Enumerates;
    ChildrenConserve(hash, parts, w, parent, order);
    UsersAtMostEventsAll(hash, parts, w, order);
  }
}
