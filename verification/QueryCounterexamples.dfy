/** Reachable tables on which the query side breaks a promise: the gate admits a
    window that still changes, so a stale answer is served from the cache; and
    cells that describe fewer than k people are released, or given away by
    subtraction. */
module QueryCounterexamples {
  import opened Collections
  import opened Windows
  import opened Hierarchy
  import opened Sketches
  import opened Aggregates
  import opened Storage
  import opened Protocol
  import opened Handovers
  import opened Privacy
  import opened Queries
  import opened SketchQueries
  import opened Handlers
  import opened Floors
  import opened Freezing
  import opened ResultCache

  // ---------- A partition without a progress row ----------

  /** A log with one edit, in the window that starts at zero. */
  function Solo(user: User): Log {
    [Some(Event(0, user, 0, "wikipedia", "enwiki", 0, KindEdit, false))]
  }

  lemma {:induction false} SoloWindow(user: User)
    ensures InWindow(Solo(user), 0, 0) && EndAt(Solo(user), 0) == WINDOW_SIZE
    ensures forall i :: IsEvent(Solo(user), i) ==> i == 0
  {
    WindowStartUnique(0, 0);
  }

  /** The edit is read, flushed and committed. */
  lemma {:induction false} SoloStored(hash: Hasher, user: User) returns (acts: seq<Action>)
    ensures Runs(Solo(user), hash, INIT, acts)
    ensures var part := Part(Solo(user), Exec(Solo(user), hash, INIT, acts));
            && Inv(part.log, hash, part.state)
            && Covered(part.state.table, WINDOW_SIZE)
            && PeopleOf(part, 0, GLOBAL) == {user}
  {
    hide WindowStart, Inv, Runs, Exec;
    var log := Solo(user);
    SoloWindow(user);
    InitInv(log, hash);
    acts := CanStillStore(log, hash, INIT, 0);
    RunInv(log, hash, INIT, acts);
    var part := Part(log, Exec(log, hash, INIT, acts));
    RowIsThere(part);
    RowsMatchLog(hash, part, 0, GLOBAL);
    SoloPeople(user, part);
  }

  lemma {:induction false} RowIsThere(part: Part)
    requires RowKey(0, GLOBAL) in part.state.table.rows
    ensures GLOBAL in RowsAt(part.state.table, 0)
  {
  }

  lemma {:induction false} SoloPeople(user: User, part: Part)
    requires part.log == Solo(user) && EntriesOf(part, 0, GLOBAL) != {}
    ensures PeopleOf(part, 0, GLOBAL) == {user}
  {
    hide WindowStart;
    SoloWindow(user);
    var i := Pick(EntriesOf(part, 0, GLOBAL));
    assert EntriesOf(part, 0, GLOBAL) == {0};
  }

  /** At most one entry is ever counted in such a log. */
  lemma {:induction false} SoloSmall(hash: Hasher, user: User, part: Part, w: Time, c: CellKey)
    requires part.log == Solo(user) && Inv(part.log, hash, part.state)
    ensures EventsOf(RowsAt(part.state.table, w), c) <= 1
  {
    hide WindowStart, Inv, RowsAt, EventsOf, Contributes;
    SoloWindow(user);
    RowsMatchLog(hash, part, w, c);
    SubsetCard(EntriesOf(part, w, c), {0});
  }

  const GLOBAL_QUERY: StatsQuery := StatsQuery(0, LEVEL_GLOBAL, None, None, Exact)

  /** Alice's and Bob's partitions, before anything ran. */
  function Pair(alice: State, bob: State): seq<Part> {
    [Part(Solo("alice"), alice), Part(Solo("bob"), bob)]
  }

  lemma {:induction false} PairFacts(hash: Hasher, alice: State, bob: State)
    requires Inv(Solo("alice"), hash, alice) && Inv(Solo("bob"), hash, bob)
    ensures PartsSound(hash, Pair(alice, bob)) && Routed(Pair(alice, bob))
    ensures EveryoneOf(Pair(alice, bob), 0, GLOBAL)
         == PeopleOf(Pair(alice, bob)[0], 0, GLOBAL) + PeopleOf(Pair(alice, bob)[1], 0, GLOBAL)
    ensures forall estimate, most ::
              SumsFit(ViewAt(TablesOf(Pair(alice, bob)), 0), GLOBAL, Exact, estimate, most)
  {
    hide Inv, PeopleOf, RowsAt;
    var parts := Pair(alice, bob);
    SoloWindow("alice");
    SoloWindow("bob");
    assert parts[1..][0] == parts[1] && parts[1..][1..] == [];
    assert EveryoneOf(parts[1..], 0, GLOBAL) == PeopleOf(parts[1], 0, GLOBAL) + EveryoneOf([], 0, GLOBAL);
    var view := ViewAt(TablesOf(parts), 0);
    forall c
      ensures ColumnSum(EventsOf, view, c) < BIGINT_LIMIT
    {
      SoloSmall(hash, "alice", parts[0], 0, c);
      SoloSmall(hash, "bob", parts[1], 0, c);
      assert view[1..][0] == view[1] && view[1..][1..] == [];
      assert ColumnSum(EventsOf, view[1..], c) == EventsOf(view[1], c) + ColumnSum(EventsOf, [], c);
    }
  }

  lemma {:induction false} GateOfOne(alice: Table, bob: Table)
    requires Covered(alice, WINDOW_SIZE) && (bob.progress.None? || Covered(bob, WINDOW_SIZE))
    ensures Complete([alice, bob], 0)
  {
    var tables := [alice, bob];
    GateMeans(tables, 0);
    assert tables[0].progress.Some?;
  }

  /** Alice's partition has flushed the window; Bob's has no progress row yet, so
      the gate ignores it and admits the window. Bob's event is then stored, and
      no answer given before agrees with any answer given after: what the cache
      holds is stale for good. */
  lemma {:induction false} GateAdmitsStaleAnswer(hash: Hasher, k: nat, estimate: Estimate)
      returns (first: seq<seq<Action>>, before: seq<Part>, more: seq<seq<Action>>, after: seq<Part>)
    ensures PartsRun(hash, Pair(INIT, INIT), first, before) && PartsRun(hash, before, more, after)
    ensures PartsSound(hash, before) && PartsSound(hash, after)
    ensures Complete(TablesOf(before), 0) && Complete(TablesOf(after), 0)
    ensures SumsFit(ViewAt(TablesOf(before), 0), GLOBAL, Exact, estimate, 0)
    ensures SumsFit(ViewAt(TablesOf(after), 0), GLOBAL, Exact, estimate, 0)
    ensures forall cached, fresh' ::
              && IsAnswer(ViewAt(TablesOf(before), 0), GLOBAL_QUERY, k, estimate, cached)
              && IsAnswer(ViewAt(TablesOf(after), 0), GLOBAL_QUERY, k, estimate, fresh') ==>
                ResultCounts(cached.cells) != ResultCounts(fresh'.cells)
  {
    hide Inv, Runs, Exec, Solo, PeopleOf, EveryoneOf, PartsSound, Routed, IsAnswer, SumsFit, Complete;
    var a := SoloStored(hash, "alice");
    var b := SoloStored(hash, "bob");
    var alice, bob := Exec(Solo("alice"), hash, INIT, a), Exec(Solo("bob"), hash, INIT, b);
    first, before, more, after := [a, []], Pair(alice, INIT), [[], b], Pair(alice, bob);
    StayPut(Solo("bob"), hash, INIT);
    StayPut(Solo("alice"), hash, alice);
    InitInv(Solo("bob"), hash);
    PairFacts(hash, alice, INIT);
    PairFacts(hash, alice, bob);
    GateOfOne(alice.table, INIT.table);
    GateOfOne(alice.table, bob.table);
    assert TablesOf(before) == [alice.table, INIT.table] && TablesOf(after) == [alice.table, bob.table];
    assert PeopleOf(before[1], 0, GLOBAL) == {} by { NobodyStored(); }
    TwoCounts(hash, before, after, k, estimate, "alice", "bob");
  }

  lemma {:induction false} NobodyStored()
    ensures PeopleOf(Part(Solo("bob"), INIT), 0, GLOBAL) == {}
  {
  }

  lemma {:induction false} TwoCounts(hash: Hasher, before: seq<Part>, after: seq<Part>, k: nat, estimate: Estimate,
                                     x: User, y: User)
    requires PartsSound(hash, before) && Routed(before) && PartsSound(hash, after) && Routed(after) && x != y
    requires EveryoneOf(before, 0, GLOBAL) == {x} && EveryoneOf(after, 0, GLOBAL) == {x} + {y}
    ensures forall cached, fresh' ::
              && IsAnswer(ViewAt(TablesOf(before), 0), GLOBAL_QUERY, k, estimate, cached)
              && IsAnswer(ViewAt(TablesOf(after), 0), GLOBAL_QUERY, k, estimate, fresh') ==>
                ResultCounts(cached.cells) != ResultCounts(fresh'.cells)
  {
    hide PartsSound, Routed, IsAnswer, EveryoneOf;
    assert |{x}| == 1 && |{x} + {y}| == 2;
    forall cached, fresh' | IsAnswer(ViewAt(TablesOf(before), 0), GLOBAL_QUERY, k, estimate, cached)
                            && IsAnswer(ViewAt(TablesOf(after), 0), GLOBAL_QUERY, k, estimate, fresh')
      ensures ResultCounts(cached.cells) != ResultCounts(fresh'.cells)
    {
      GlobalFloorIff(hash, before, GLOBAL_QUERY, k, estimate, cached);
      GlobalFloorIff(hash, after, GLOBAL_QUERY, k, estimate, fresh');
      assert ResultCounts(cached.cells)[0] == 1 && ResultCounts(fresh'.cells)[0] == 2;
    }
  }

  /** Asked before and after, the endpoint gives the same reply: on the tables of
      `GateAdmitsStaleAnswer` the second one is stale. */
  method AskTwice(render: Time -> string, estimate: Estimate, k: nat, ghost hash: Hasher, ghost before: seq<Part>,
                  ghost after: seq<Part>, early: seq<Table>, late: seq<Table>) returns (first: Reply, second: Reply)
    requires Rfc3339Like(render) && PartsSound(hash, before) && PartsSound(hash, after)
    requires early == TablesOf(before) && late == TablesOf(after)
    requires Complete(early, 0) && Complete(late, 0)
    requires SumsFit(ViewAt(early, 0), GLOBAL, Exact, estimate, 0)
    requires SumsFit(ViewAt(late, 0), GLOBAL, Exact, estimate, 0)
    ensures first.Ok? && second == first
    ensures IsAnswer(ViewAt(early, 0), GLOBAL_QUERY, k, estimate, first.response)
  {
    hide Rfc3339Like, PartsSound, Complete, SumsFit, IsAnswerOver, CacheKey, CacheSound, ViewAt;
    ExtendsItself(early);
    ExtendsItself(late);
    var api := new QueryApi(k);
    first := api.GetStats(render, estimate, hash, before, before, early, early, early, GLOBAL_QUERY, 0);
    second := api.GetStats(render, estimate, hash, after, after, late, late, late, GLOBAL_QUERY, 0);
  }

  lemma {:induction false} ExtendsItself(tables: seq<Table>)
    ensures AllExtend(tables, tables)
  {
  }

  // ---------- Small logs ----------

  /** An edit of the English Wikipedia in the window that starts at zero. */
  function Edit(id: nat, user: User, namespace: int): Option<Event> {
    Some(Event(id, user, 0, "wikipedia", "enwiki", namespace, KindEdit, false))
  }

  /** Every entry is an edit of that window, with an id of its own. */
  ghost predicate Edits(log: Log) {
    && |log| > 0 && WindowStart(0) == 0
    && (forall i :: 0 <= i < |log| ==> log[i].Some? && log[i].value.ts == 0)
    && (forall i, j :: 0 <= i < j < |log| ==> log[i].value.id != log[j].value.id)
  }

  /** The edits a cell counts, and who made them. */
  function EditsIn(log: Log, c: CellKey): set<int> {
    set i | 0 <= i < |log| && log[i].Some? && Contributes(log[i].value, c)
  }

  function EditorsIn(log: Log, c: CellKey): set<User> {
    set i | i in EditsIn(log, c) :: log[i].value.user
  }

  /** All edits are read, flushed and committed together. */
  lemma {:induction false} EditsStored(log: Log, hash: Hasher) returns (acts: seq<Action>)
    requires Edits(log)
    ensures Runs(log, hash, INIT, acts)
    ensures var part := Part(log, Exec(log, hash, INIT, acts));
            Inv(part.log, hash, part.state) && PositionOf(part, 0) >= |log|
  {
    hide WindowStart, Inv, Runs, Exec, MemTracks, Assigned;
    var start := Assign(true, 0, 0, false);
    InitInv(log, hash);
    ReadProgressIsHarmless(log, INIT, start);
    var s := Assigned(hash, INIT, start);
    ResumedTracks(log, hash, INIT, start);
    StartsLow(hash, start);
    assert EndAt(log, 0) == WINDOW_SIZE;
    var rest := ReadAndFlush(log, hash, s, 0, WINDOW_SIZE);
    Prepend(log, hash, INIT, start, rest);
    acts := [start] + rest;
    RunInv(log, hash, INIT, acts);
    assert IsEvent(log, |log| - 1);
  }

  lemma {:induction false} StartsLow(hash: Hasher, a: Action)
    requires a == Assign(true, 0, 0, false)
    ensures var s := Assigned(hash, INIT, a); s.mem.Some? && s.batch.None? && s.mem.value.flushed == -DAY
  {
  }

  lemma {:induction false} EditsFound(log: Log, part: Part, c: CellKey)
    requires Edits(log) && part.log == log && PositionOf(part, 0) >= |log|
    ensures EntriesOf(part, 0, c) == EditsIn(log, c) && PeopleOf(part, 0, c) == EditorsIn(log, c)
  {
    hide WindowStart, Contributes;
    assert EntriesOf(part, 0, c) == EditsIn(log, c);
  }

  /** What one partition, having counted all edits, stores for a cell. */
  lemma {:induction false} EditsCounted(log: Log, hash: Hasher, part: Part, c: CellKey)
    requires Edits(log) && part.log == log && Inv(part.log, hash, part.state) && PositionOf(part, 0) >= |log|
    ensures var view := ViewAt(TablesOf([part]), 0);
            && (c in view[0] <==> EditsIn(log, c) != {})
            && FetchCell(view, c)
               == RawCell(c.family, c.wiki, c.namespace, |EditsIn(log, c)|, |EditorsIn(log, c)|)
            && EveryoneOf([part], 0, c) == EditorsIn(log, c)
  {
    hide Inv, RowsAt, PeopleOf, EntriesOf, EditsIn, EditorsIn, EventsOf, UsersOf, Edits;
    hide FetchCell, EveryoneOf, ViewAt;
    EditsFound(log, part, c);
    RowsMatchLog(hash, part, 0, c);
    OnePartition(part, c);
  }

  lemma {:induction false} OnePartition(part: Part, c: CellKey)
    ensures var view, rows := ViewAt(TablesOf([part]), 0), RowsAt(part.state.table, 0);
            && view == [rows]
            && FetchCell(view, c) == RawCell(c.family, c.wiki, c.namespace, EventsOf(rows, c), UsersOf(rows, c))
            && EveryoneOf([part], 0, c) == PeopleOf(part, 0, c)
  {
    hide RowsAt, PeopleOf, EventsOf, UsersOf;
    var view := ViewAt(TablesOf([part]), 0);
    assert view[0] == RowsAt(part.state.table, 0) && view[1..] == [] && [part][1..] == [];
    assert ColumnSum(EventsOf, view, c) == EventsOf(view[0], c) + ColumnSum(EventsOf, [], c);
    assert ColumnSum(UsersOf, view, c) == UsersOf(view[0], c) + ColumnSum(UsersOf, [], c);
    assert EveryoneOf([part], 0, c) == PeopleOf(part, 0, c) + EveryoneOf([], 0, c);
  }

  /** The query selects the listed cells, if they are its cells with an edit. */
  lemma {:induction false} EditsSelected(log: Log, hash: Hasher, part: Part, parent: CellKey, order: seq<CellKey>)
    requires Edits(log) && part.log == log && Inv(part.log, hash, part.state) && PositionOf(part, 0) >= |log|
    requires forall i, j :: 0 <= i < j < |order| ==> order[i] != order[j]
    requires forall c :: c in order <==> MatchesWhere(parent, c) && EditsIn(log, c) != {}
    ensures Enumerates(order, Selected(ViewAt(TablesOf([part]), 0), parent))
  {
    hide Inv, PositionOf, FetchCell, EveryoneOf, EditsIn, EditorsIn, MatchesWhere, Edits;
    var view := ViewAt(TablesOf([part]), 0);
    forall c
      ensures c in Selected(view, parent) <==> MatchesWhere(parent, c) && EditsIn(log, c) != {}
    {
      EditsCounted(log, hash, part, c);
      if MatchesWhere(parent, c) && c in view[0] {
        SelectedHas(view, parent, 0, c);
      }
    }
  }

  lemma {:induction false} SelectedHas(view: seq<CellRows>, parent: CellKey, p: nat, c: CellKey)
    requires p < |view| && c in view[p] && MatchesWhere(parent, c)
    ensures c in Selected(view, parent)
  {
  }

  /** An exact answer above the global level, from the children in any order. */
  lemma {:induction false} ExactAnswer(hash: Hasher, parts: seq<Part>, q: StatsQuery, order: seq<CellKey>, k: nat,
                                       estimate: Estimate) returns (resp: StatsResponse)
    requires ValidQuery(q) && q.level > LEVEL_GLOBAL && q.estimator.Exact? && PartsSound(hash, parts)
    requires Enumerates(order, Selected(ViewAt(TablesOf(parts), q.window), ParentKey(q)))
    ensures var view := ViewAt(TablesOf(parts), q.window);
            && IsAnswer(view, q, k, estimate, resp)
            && resp.cells == Suppressed(FetchCell(view, ParentKey(q)).users, FetchAll(view, order), k)
  {
    hide PartsSound, FetchCell, FetchGroups, FetchAll, Groups, Selected, Enumerates, Suppressed, CanonicalView;
    hide Canonical, GroupsOf;
    var view, parent := ViewAt(TablesOf(parts), q.window), ParentKey(q);
    ReachableCanonical(hash, parts, q.window);
    ChildrenAreGroups(view, parent, order);
    var cell, children := Some(FetchCell(view, parent)), FetchAll(view, order);
    resp := StatsResponse(q.window, q.level, Suppressed(UsersOrZero(cell), children, k));
    assert ReadsCell(view, parent, q.estimator, estimate, cell);
    assert ReadsChildren(view, parent, q.estimator, estimate, children);
  }

  const FAMILY: CellKey := CellKey(LEVEL_FAMILY, "wikipedia", ROLLUP_STR, ROLLUP_NAMESPACE)

  const WIKI: CellKey := CellKey(LEVEL_WIKI, "wikipedia", "enwiki", ROLLUP_NAMESPACE)

  function Namespace(n: int): CellKey {
    CellKey(LEVEL_NAMESPACE, "wikipedia", "enwiki", n)
  }

  const WIKI_QUERY: StatsQuery := StatsQuery(0, LEVEL_WIKI, Some("wikipedia"), None, Exact)

  const NAMESPACE_QUERY: StatsQuery :=
    StatsQuery(0, LEVEL_NAMESPACE, Some("wikipedia"), Some("enwiki"), Exact)

  /** The four cells of an edit. */
  lemma {:induction false} CellsOfEdit(id: nat, user: User, n: int, c: CellKey)
    ensures Contributes(Edit(id, user, n).value, c) <==> c == GLOBAL || c == FAMILY || c == WIKI || c == Namespace(n)
  {
    assert CellsForEvent(Edit(id, user, n).value) == [GLOBAL, FAMILY, WIKI, Namespace(n)];
  }

  // ---------- Fewer than k people ----------

  /** One person's two edits, in two namespaces of one wiki. */
  const TWICE: Log := [Edit(0, "carol", 0), Edit(1, "carol", 1)]

  lemma {:induction false} TwiceIn(c: CellKey)
    ensures Edits(TWICE)
    ensures c == GLOBAL || c == WIKI ==> EditsIn(TWICE, c) == {0, 1} && EditorsIn(TWICE, c) == {"carol"}
    ensures forall n :: 0 <= n < 2 && c == Namespace(n) ==> EditsIn(TWICE, c) == {n} && EditorsIn(TWICE, c) == {"carol"}
    ensures c in [Namespace(0), Namespace(1)] <==> MatchesWhere(WIKI, c) && EditsIn(TWICE, c) != {}
  {
    hide WindowStart, Contributes;
    WindowStartUnique(0, 0);
    CellsOfEdit(0, "carol", 0, c);
    CellsOfEdit(1, "carol", 1, c);
    assert 0 in EditsIn(TWICE, c) <==> Contributes(TWICE[0].value, c);
    assert 1 in EditsIn(TWICE, c) <==> Contributes(TWICE[1].value, c);
  }

  /** One person in two namespaces, with k of two: the two hidden children add up
      to two users, so `Other` is released with two, and describes one person. */
  lemma {:induction false} OtherDescribesOnePerson(hash: Hasher, estimate: Estimate)
      returns (acts: seq<Action>, parts: seq<Part>, resp: StatsResponse)
    ensures Runs(TWICE, hash, INIT, acts) && parts == [Part(TWICE, Exec(TWICE, hash, INIT, acts))]
    ensures IsAnswer(ViewAt(TablesOf(parts), 0), NAMESPACE_QUERY, 2, estimate, resp)
    ensures resp.cells == [Other(2, 2)] && |EveryoneOf(parts, 0, ParentKey(NAMESPACE_QUERY))| == 1
  {
    hide Inv, Runs, Exec, PositionOf, FetchCell, EveryoneOf, EditsIn, EditorsIn, Selected, Enumerates;
    hide Suppressed, IsAnswer, Edits, MatchesWhere;
    forall c
      ensures c in [Namespace(0), Namespace(1)] <==> MatchesWhere(WIKI, c) && EditsIn(TWICE, c) != {}
    {
      TwiceIn(c);
    }
    TwiceIn(WIKI);
    acts := EditsStored(TWICE, hash);
    var part := Part(TWICE, Exec(TWICE, hash, INIT, acts));
    parts := [part];
    var order := [Namespace(0), Namespace(1)];
    EditsSelected(TWICE, hash, part, WIKI, order);
    assert ParentKey(NAMESPACE_QUERY) == WIKI;
    resp := ExactAnswer(hash, parts, NAMESPACE_QUERY, order, 2, estimate);
    TwiceIn(Namespace(0));
    TwiceIn(Namespace(1));
    EditsCounted(TWICE, hash, part, WIKI);
    EditsCounted(TWICE, hash, part, Namespace(0));
    EditsCounted(TWICE, hash, part, Namespace(1));
    var a, b := RawCell("wikipedia", "enwiki", 0, 1, 1), RawCell("wikipedia", "enwiki", 1, 1, 1);
    assert FetchAll(ViewAt(TablesOf(parts), 0), order) == [a, b];
    TwoSmall(a, b);
  }

  /** `suppress` on a list, cell by cell. */
  lemma {:induction false} FirstCell(a: RawCell, rest: seq<RawCell>, k: nat)
    ensures Eligible([a] + rest, k) == (if a.users >= k then [a] else []) + Eligible(rest, k)
    ensures BelowK([a] + rest, k) == (if a.users < k then [a] else []) + BelowK(rest, k)
    ensures TotalUsers([a] + rest) == a.users + TotalUsers(rest)
    ensures TotalEvents([a] + rest) == a.events + TotalEvents(rest)
  {
    assert ([a] + rest)[1..] == rest;
  }

  lemma {:induction false} NoCells(k: nat)
    ensures Eligible([], k) == [] && BelowK([], k) == [] && SortByUsers([]) == [] && ShowAll([]) == []
    ensures TotalUsers([]) == TotalEvents([]) == 0
  {
  }

  lemma {:induction false} OneCell(a: RawCell)
    ensures SortByUsers([a]) == [a] && ShowAll([a]) == [Show(a)] && TotalUsers([a]) == a.users
  {
    NoCells(0);
    assert [a][1..] == [];
    assert InsertByUsers(a, []) == [a];
    TotalsOfOne(a);
  }

  lemma {:induction false} SmallPair(a: RawCell, b: RawCell)
    requires a.users == b.users == a.events == b.events == 1
    ensures BelowK([a, b], 2) == [a, b] && Eligible([a, b], 2) == []
    ensures TotalUsers([a, b]) == TotalEvents([a, b]) == 2
  {
    hide BelowK, Eligible, TotalUsers, TotalEvents;
    NoCells(2);
    assert [a, b] == [a] + [b] && [b] == [b] + [];
    FirstCell(a, [b], 2);
    FirstCell(b, [], 2);
  }

  lemma {:induction false} TwoSmall(a: RawCell, b: RawCell)
    requires a.users == b.users == a.events == b.events == 1
    ensures Suppressed(1, [a, b], 2) == [Other(2, 2)]
  {
    hide BelowK, Eligible, TotalUsers, TotalEvents, SortByUsers, ShowAll;
    NoCells(2);
    SmallPair(a, b);
  }

  /** The same table at the global level: one person, below k of two, is released. */
  lemma {:induction false} GlobalReleasesOnePerson(hash: Hasher, estimate: Estimate)
      returns (acts: seq<Action>, parts: seq<Part>, resp: StatsResponse)
    ensures Runs(TWICE, hash, INIT, acts) && parts == [Part(TWICE, Exec(TWICE, hash, INIT, acts))]
    ensures IsAnswer(ViewAt(TablesOf(parts), 0), GLOBAL_QUERY, 2, estimate, resp)
    ensures resp.cells == [Other(2, 1)] && |EveryoneOf(parts, 0, GLOBAL)| == 1
  {
    hide Inv, Runs, Exec, PositionOf, FetchCell, EveryoneOf, EditsIn, EditorsIn, Edits;
    TwiceIn(GLOBAL);
    acts := EditsStored(TWICE, hash);
    var part := Part(TWICE, Exec(TWICE, hash, INIT, acts));
    parts := [part];
    EditsCounted(TWICE, hash, part, GLOBAL);
    var cell := Some(FetchCell(ViewAt(TablesOf(parts), 0), GLOBAL));
    assert ReadsCell(ViewAt(TablesOf(parts), 0), GLOBAL, Exact, estimate, cell);
    resp := StatsResponse(0, LEVEL_GLOBAL, GlobalCells(cell, 2));
  }

  // ---------- Subtracting from the parent ----------

  /** Two people in one namespace, and a third in two others. */
  const CROWD: Log := [Edit(0, "xavier", 0), Edit(1, "yara", 0), Edit(2, "zoe", 1), Edit(3, "zoe", 2)]

  lemma {:induction false} CrowdIn(c: CellKey)
    ensures Edits(CROWD)
    ensures c == FAMILY || c == WIKI ==>
              EditsIn(CROWD, c) == {0, 1, 2, 3} && EditorsIn(CROWD, c) == {"xavier", "yara", "zoe"}
    ensures c == Namespace(0) ==> EditsIn(CROWD, c) == {0, 1} && EditorsIn(CROWD, c) == {"xavier", "yara"}
    ensures c == Namespace(1) ==> EditsIn(CROWD, c) == {2} && EditorsIn(CROWD, c) == {"zoe"}
    ensures c == Namespace(2) ==> EditsIn(CROWD, c) == {3} && EditorsIn(CROWD, c) == {"zoe"}
    ensures c in [Namespace(0), Namespace(1), Namespace(2)] <==> MatchesWhere(WIKI, c) && EditsIn(CROWD, c) != {}
    ensures c in [WIKI] <==> MatchesWhere(FAMILY, c) && EditsIn(CROWD, c) != {}
  {
    hide WindowStart, Contributes;
    WindowStartUnique(0, 0);
    CellsOfEdit(0, "xavier", 0, c);
    CellsOfEdit(1, "yara", 0, c);
    CellsOfEdit(2, "zoe", 1, c);
    CellsOfEdit(3, "zoe", 2, c);
    assert 0 in EditsIn(CROWD, c) <==> Contributes(CROWD[0].value, c);
    assert 1 in EditsIn(CROWD, c) <==> Contributes(CROWD[1].value, c);
    assert 2 in EditsIn(CROWD, c) <==> Contributes(CROWD[2].value, c);
    assert 3 in EditsIn(CROWD, c) <==> Contributes(CROWD[3].value, c);
  }

  /** The wiki's row is released with three users, as one cell of its family. */
  lemma {:induction false} CrowdWhole(hash: Hasher, part: Part, estimate: Estimate) returns (whole: StatsResponse)
    requires part.log == CROWD && Inv(part.log, hash, part.state) && PositionOf(part, 0) >= |CROWD|
    ensures IsAnswer(ViewAt(TablesOf([part]), 0), WIKI_QUERY, 2, estimate, whole)
    ensures whole.cells == [Visible("wikipedia", "enwiki", ROLLUP_NAMESPACE, 4, 3)]
  {
    hide Inv, PositionOf, FetchCell, EveryoneOf, EditsIn, EditorsIn, Selected, Enumerates, Suppressed, IsAnswer;
    hide Edits, MatchesWhere;
    forall c
      ensures c in [WIKI] <==> MatchesWhere(FAMILY, c) && EditsIn(CROWD, c) != {}
    {
      CrowdIn(c);
    }
    CrowdIn(WIKI);
    CrowdIn(FAMILY);
    EditsSelected(CROWD, hash, part, FAMILY, [WIKI]);
    assert ParentKey(WIKI_QUERY) == FAMILY;
    whole := ExactAnswer(hash, [part], WIKI_QUERY, [WIKI], 2, estimate);
    EditsCounted(CROWD, hash, part, FAMILY);
    EditsCounted(CROWD, hash, part, WIKI);
    var a := RawCell("wikipedia", "enwiki", ROLLUP_NAMESPACE, 4, 3);
    assert FetchAll(ViewAt(TablesOf([part]), 0), [WIKI]) == [a];
    OneLarge(a);
  }

  lemma {:induction false} OneLarge(a: RawCell)
    requires a.users == 3
    ensures Suppressed(3, [a], 2) == [Show(a)]
  {
    hide BelowK, Eligible, TotalUsers, TotalEvents, SortByUsers, ShowAll;
    NoCells(2);
    OneCell(a);
    assert [a] == [a] + [];
    FirstCell(a, [], 2);
  }

  /** Its namespaces: two users in one, and `Other` with two. */
  lemma {:induction false} CrowdSplit(hash: Hasher, part: Part, estimate: Estimate) returns (split: StatsResponse)
    requires part.log == CROWD && Inv(part.log, hash, part.state) && PositionOf(part, 0) >= |CROWD|
    ensures IsAnswer(ViewAt(TablesOf([part]), 0), NAMESPACE_QUERY, 2, estimate, split)
    ensures split.cells == [Visible("wikipedia", "enwiki", 0, 2, 2), Other(2, 2)]
  {
    hide Inv, PositionOf, FetchCell, EveryoneOf, EditsIn, EditorsIn, Selected, Enumerates, Suppressed, IsAnswer;
    hide Edits, MatchesWhere, FetchAll;
    var order := [Namespace(0), Namespace(1), Namespace(2)];
    forall c
      ensures c in order <==> MatchesWhere(WIKI, c) && EditsIn(CROWD, c) != {}
    {
      CrowdIn(c);
    }
    CrowdIn(WIKI);
    CrowdIn(Namespace(0));
    CrowdIn(Namespace(1));
    CrowdIn(Namespace(2));
    EditsSelected(CROWD, hash, part, WIKI, order);
    assert ParentKey(NAMESPACE_QUERY) == WIKI;
    split := ExactAnswer(hash, [part], NAMESPACE_QUERY, order, 2, estimate);
    EditsCounted(CROWD, hash, part, WIKI);
    EditsCounted(CROWD, hash, part, Namespace(0));
    EditsCounted(CROWD, hash, part, Namespace(1));
    EditsCounted(CROWD, hash, part, Namespace(2));
    var view := ViewAt(TablesOf([part]), 0);
    FetchThree(view, Namespace(0), Namespace(1), Namespace(2));
    OneLargeTwoSmall(FetchCell(view, Namespace(0)), FetchCell(view, Namespace(1)), FetchCell(view, Namespace(2)));
  }

  lemma {:induction false} FetchThree(view: seq<CellRows>, a: CellKey, b: CellKey, c: CellKey)
    ensures FetchAll(view, [a, b, c]) == [FetchCell(view, a), FetchCell(view, b), FetchCell(view, c)]
  {
    hide FetchCell, FetchAll;
  }

  lemma {:induction false} OneLargeTwoSmall(a: RawCell, b: RawCell, c: RawCell)
    requires a.users == 2 && b.users == c.users == b.events == c.events == 1
    ensures Suppressed(3, [a, b, c], 2) == [Show(a), Other(2, 2)]
  {
    hide BelowK, Eligible, TotalUsers, TotalEvents, SortByUsers, ShowAll;
    SmallPair(b, c);
    OneCell(a);
    assert [a, b, c] == [a] + [b, c];
    FirstCell(a, [b, c], 2);
    assert Eligible([a, b, c], 2) == [a] && BelowK([a, b, c], 2) == [b, c];
    assert ReleaseOf(3, [a, b, c], 2) == Release([a], [b, c], 2);
  }

  /** Three people, two of them in one namespace, k of two. The wiki is released
      with three users, and its split shows two and an `Other` of two, counting
      the third person twice. Three minus two is one, which is below k: exactly
      the one person of the wiki outside the namespace shown. */
  lemma {:induction false} DifferenceIsOnePerson(hash: Hasher, estimate: Estimate)
      returns (acts: seq<Action>, parts: seq<Part>, whole: StatsResponse, split: StatsResponse)
    ensures Runs(CROWD, hash, INIT, acts) && parts == [Part(CROWD, Exec(CROWD, hash, INIT, acts))]
    ensures IsAnswer(ViewAt(TablesOf(parts), 0), WIKI_QUERY, 2, estimate, whole)
    ensures IsAnswer(ViewAt(TablesOf(parts), 0), NAMESPACE_QUERY, 2, estimate, split)
    ensures whole.cells == [Visible("wikipedia", "enwiki", ROLLUP_NAMESPACE, 4, 3)]
    ensures split.cells == [Visible("wikipedia", "enwiki", 0, 2, 2), Other(2, 2)]
    ensures EveryoneOf(parts, 0, WIKI) - EveryoneOf(parts, 0, Namespace(0)) == {"zoe"}
  {
    hide Inv, Runs, Exec, PositionOf, FetchCell, EveryoneOf, EditsIn, EditorsIn, IsAnswer, Edits;
    CrowdIn(WIKI);
    CrowdIn(Namespace(0));
    acts := EditsStored(CROWD, hash);
    var part := Part(CROWD, Exec(CROWD, hash, INIT, acts));
    parts := [part];
    whole := CrowdWhole(hash, part, estimate);
    split := CrowdSplit(hash, part, estimate);
    EditsCounted(CROWD, hash, part, WIKI);
    EditsCounted(CROWD, hash, part, Namespace(0));
  }
}
