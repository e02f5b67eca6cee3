/** What a window's cells must hold, said of the log alone, and the fold that
    accumulates them: the data of crates/aggregator/src/window.rs. */
module Aggregates {
  import opened Collections
  import opened Windows
  import opened Hierarchy
  import opened Sketches

  /** One Kafka partition, by offset; a message that does not decode is `None`. */
  type Log = seq<Option<Event>>

  datatype HllMode = HllOff | HllOn(hash: Hasher)

  datatype CellAgg = CellAgg(events: nat, users: set<User>, hll: Option<LiveSketch>)

  datatype Window = Window(minOffset: nat, seenIds: set<EventId>, cells: map<CellKey, CellAgg>)

  // ---------- The reference: which log entries count, and where ----------

  predicate IsEvent(log: Log, i: int) {
    0 <= i < |log| && log[i].Some?
  }

  function StartAt(log: Log, i: int): Time
    requires IsEvent(log, i)
  {
    WindowStart(log[i].value.ts)
  }

  function EndAt(log: Log, i: int): Time
    requires IsEvent(log, i)
  {
    WindowEnd(StartAt(log, i))
  }

  predicate InWindow(log: Log, i: int, w: Time) {
    IsEvent(log, i) && StartAt(log, i) == w
  }

  /** Entry `i` is the first of window `w` to carry its event id. */
  predicate FirstInWindow(log: Log, i: int, w: Time) {
    && InWindow(log, i, w)
    && forall j :: 0 <= j < i && InWindow(log, j, w) ==> log[j].value.id != log[i].value.id
  }

  /** The entries below `n` that window `w` counts: one per event id. */
  function Counted(log: Log, n: nat, w: Time): set<int> {
    set i | 0 <= i < n && FirstInWindow(log, i, w)
  }

  function CountedIn(log: Log, n: nat, w: Time, c: CellKey): set<int> {
    set i | 0 <= i < n && FirstInWindow(log, i, w) && Contributes(log[i].value, c)
  }

  function UsersIn(log: Log, n: nat, w: Time, c: CellKey): set<User> {
    set i | i in CountedIn(log, n, w, c) :: log[i].value.user
  }

  function IdsIn(log: Log, n: nat, w: Time): set<EventId> {
    set i | i in Counted(log, n, w) :: log[i].value.id
  }

  /** A cell holds exactly the counted entries of its key below `n`. */
  ghost predicate CellHolds(log: Log, n: nat, w: Time, c: CellKey, agg: CellAgg, mode: HllMode) {
    && agg.events == |CountedIn(log, n, w, c)|
    && agg.users == UsersIn(log, n, w, c)
    && SketchHolds(agg, mode)
  }

  ghost predicate SketchHolds(agg: CellAgg, mode: HllMode) {
    match mode
    case HllOff => agg.hll.None?
    case HllOn(hash) =>
      agg.hll.Some? && agg.hll.value.precision == DEFAULT_PRECISION && Summarises(hash, agg.hll.value, agg.users)
  }

  ghost predicate CellsHold(log: Log, n: nat, w: Time, cells: map<CellKey, CellAgg>, mode: HllMode) {
    && (forall c :: c in cells <==> CountedIn(log, n, w, c) != {})
    && (forall c :: c in cells ==> CellHolds(log, n, w, c, cells[c], mode))
  }

  /** Entry `i` opens window `w`: no earlier entry is in it. */
  ghost predicate Opens(log: Log, n: nat, i: int, w: Time) {
    && i < n && InWindow(log, i, w)
    && forall j :: 0 <= j < n && InWindow(log, j, w) ==> i <= j
  }

  /** An open window holds exactly what the first `n` log entries put in it. */
  ghost predicate WindowHolds(log: Log, n: nat, w: Time, win: Window, mode: HllMode) {
    && Opens(log, n, win.minOffset, w)
    && win.seenIds == IdsIn(log, n, w)
    && CellsHold(log, n, w, win.cells, mode)
  }

  // ---------- The fold ----------

  const NO_EVENTS: CellAgg := CellAgg(0, {}, None)

  /** One event of `user` added to one cell. */
  function Bump(agg: CellAgg, user: User, mode: HllMode): CellAgg
  {
    CellAgg(agg.events + 1, agg.users + {user},
            match mode
            case HllOff => agg.hll
            case HllOn(hash) =>
              Some(Inserted(hash, if agg.hll.Some? then agg.hll.value else Empty(DEFAULT_PRECISION), user)))
  }

  /** The same, with the sketch updated in place. */
  method BumpCell(agg: CellAgg, user: User, mode: HllMode) returns (r: CellAgg)
    ensures r == Bump(agg, user, mode)
  {
    var hll := agg.hll;
    if mode.HllOn? {
      var sketch: Sketch := if agg.hll.Some? then agg.hll.value else Empty(DEFAULT_PRECISION);
      var live := new HyperLogLog.From(sketch);
      live.Insert(mode.hash, user);
      var inserted: LiveSketch := live.Value();
      hll := Some(inserted);
    }
    r := CellAgg(agg.events + 1, agg.users + {user}, hll);
  }

  function CellOrNone(cells: map<CellKey, CellAgg>, c: CellKey): CellAgg {
    if c in cells then cells[c] else NO_EVENTS
  }

  /** The cell loop of `process_event`. */
  function BumpAll(cells: map<CellKey, CellAgg>, keys: seq<CellKey>, user: User, mode: HllMode): map<CellKey, CellAgg>
    decreases |keys|
  {
    if |keys| == 0 then cells
    else BumpAll(cells[keys[0] := Bump(CellOrNone(cells, keys[0]), user, mode)], keys[1..], user, mode)
  }

  method BumpCells(cells: map<CellKey, CellAgg>, keys: seq<CellKey>, user: User, mode: HllMode)
      returns (r: map<CellKey, CellAgg>)
    ensures r == BumpAll(cells, keys, user, mode)
  {
    r := cells;
    for i := 0 to |keys|
      invariant BumpAll(r, keys[i..], user, mode) == BumpAll(cells, keys, user, mode)
    {
      assert keys[i..][1..] == keys[i + 1..];
      var bumped := BumpCell(CellOrNone(r, keys[i]), user, mode);
      r := r[keys[i] := bumped];
    }
  }

  /** Distinct keys are each bumped once and nothing else moves. */
  lemma {:induction false} BumpAllPointwise(cells: map<CellKey, CellAgg>, keys: seq<CellKey>, user: User, mode: HllMode)
    requires forall i, j :: 0 <= i < j < |keys| ==> keys[i] != keys[j]
    ensures var r := BumpAll(cells, keys, user, mode);
            && (forall c :: c in r <==> c in cells || c in keys)
            && (forall c :: c in keys ==> r[c] == Bump(CellOrNone(cells, c), user, mode))
            && (forall c :: c in cells && c !in keys ==> r[c] == cells[c])
    decreases |keys|
  {
    hide Bump;
    if |keys| > 0 {
      var next := cells[keys[0] := Bump(CellOrNone(cells, keys[0]), user, mode)];
      assert forall c :: c in keys <==> c == keys[0] || c in keys[1..];
      assert keys[0] !in keys[1..];
      BumpAllPointwise(next, keys[1..], user, mode);
    }
  }

  function FreshWindow(offset: nat): Window {
    Window(offset, {}, map[])
  }

  /** Folds an event that is new to the window. */
  function AddEvent(win: Window, e: Event, offset: nat, mode: HllMode): Window
  {
    Window(Min(win.minOffset, offset), win.seenIds + {e.id},
           BumpAll(win.cells, CellsForEvent(e), e.user, mode))
  }

  // ---------- The fold agrees with the reference ----------

  /** An entry that is not in the window, or repeats an id, changes nothing. */
  lemma {:induction false} CountedSkips(log: Log, n: nat, w: Time)
    requires !FirstInWindow(log, n, w)
    ensures Counted(log, n + 1, w) == Counted(log, n, w)
    ensures forall c :: CountedIn(log, n + 1, w, c) == CountedIn(log, n, w, c)
    ensures IdsIn(log, n + 1, w) == IdsIn(log, n, w)
    ensures forall c :: UsersIn(log, n + 1, w, c) == UsersIn(log, n, w, c)
  {
  }

  /** A new id adds its entry and its user to each of its cells, once. */
  lemma {:induction false} CountedGrows(log: Log, n: nat, w: Time, c: CellKey)
    requires FirstInWindow(log, n, w) && Contributes(log[n].value, c)
    ensures CountedIn(log, n + 1, w, c) == CountedIn(log, n, w, c) + {n}
    ensures UsersIn(log, n + 1, w, c) == UsersIn(log, n, w, c) + {log[n].value.user}
    ensures |CountedIn(log, n + 1, w, c)| == |CountedIn(log, n, w, c)| + 1
  {
  }

  lemma {:induction false} CountedElsewhere(log: Log, n: nat, w: Time, c: CellKey)
    requires FirstInWindow(log, n, w) && !Contributes(log[n].value, c)
    ensures CountedIn(log, n + 1, w, c) == CountedIn(log, n, w, c)
    ensures UsersIn(log, n + 1, w, c) == UsersIn(log, n, w, c)
  {
  }

  lemma {:induction false} BumpHolds(log: Log, n: nat, w: Time, c: CellKey, agg: CellAgg, mode: HllMode)
    requires FirstInWindow(log, n, w) && Contributes(log[n].value, c)
    requires CellHolds(log, n, w, c, agg, mode) || (agg == NO_EVENTS && CountedIn(log, n, w, c) == {})
    ensures CellHolds(log, n + 1, w, c, Bump(agg, log[n].value.user, mode), mode)
  {
    hide WindowStart, CountedIn, Summarises, Inserted;
    CountedGrows(log, n, w, c);
    if mode.HllOn? {
      var before: LiveSketch := if agg.hll.Some? then agg.hll.value else Empty(DEFAULT_PRECISION);
      EmptySummarises(mode.hash, DEFAULT_PRECISION);
      InsertSummarises(mode.hash, before, agg.users, log[n].value.user);
    }
  }

  lemma {:induction false} BumpHoldsAt(log: Log, n: nat, w: Time, cells: map<CellKey, CellAgg>,
                                       r: map<CellKey, CellAgg>, mode: HllMode, c: CellKey)
    requires FirstInWindow(log, n, w) && CellsHold(log, n, w, cells, mode)
    requires c in r <==> c in cells || Contributes(log[n].value, c)
    requires Contributes(log[n].value, c) ==> r[c] == Bump(CellOrNone(cells, c), log[n].value.user, mode)
    requires c in cells && !Contributes(log[n].value, c) ==> r[c] == cells[c]
    ensures c in r <==> CountedIn(log, n + 1, w, c) != {}
    ensures c in r ==> CellHolds(log, n + 1, w, c, r[c], mode)
  {
    if Contributes(log[n].value, c) {
      assert n in CountedIn(log, n + 1, w, c);
      BumpHolds(log, n, w, c, CellOrNone(cells, c), mode);
    } else {
      CountedElsewhere(log, n, w, c);
    }
  }

  lemma {:induction false} BumpAllHolds(log: Log, n: nat, w: Time, cells: map<CellKey, CellAgg>, mode: HllMode)
    requires FirstInWindow(log, n, w) && CellsHold(log, n, w, cells, mode)
    ensures CellsHold(log, n + 1, w, BumpAll(cells, CellsForEvent(log[n].value), log[n].value.user, mode), mode)
  {
    hide WindowStart, CellHolds, Bump, BumpAll, CountedIn;
    var keys := CellsForEvent(log[n].value);
    var r := BumpAll(cells, keys, log[n].value.user, mode);
    BumpAllPointwise(cells, keys, log[n].value.user, mode);
    forall c
      ensures c in r <==> CountedIn(log, n + 1, w, c) != {}
      ensures c in r ==> CellHolds(log, n + 1, w, c, r[c], mode)
    {
      BumpHoldsAt(log, n, w, cells, r, mode, c);
    }
  }

  /** Folding a new id keeps a window equal to its reference. */
  lemma {:induction false} AddEventHolds(log: Log, n: nat, w: Time, win: Window, mode: HllMode)
    requires WindowHolds(log, n, w, win, mode) && InWindow(log, n, w) && log[n].value.id !in win.seenIds
    ensures WindowHolds(log, n + 1, w, AddEvent(win, log[n].value, n, mode), mode)
  {
    hide WindowStart, CellsHold, BumpAll, CountedIn;
    NewIdIsFirst(log, n, w);
    BumpAllHolds(log, n, w, win.cells, mode);
    assert Counted(log, n + 1, w) == Counted(log, n, w) + {n};
  }

  lemma {:induction false} NewIdIsFirst(log: Log, n: nat, w: Time)
    requires InWindow(log, n, w)
    ensures FirstInWindow(log, n, w) <==> log[n].value.id !in IdsIn(log, n, w)
  {
    if log[n].value.id !in IdsIn(log, n, w) {
      forall j | 0 <= j < n && InWindow(log, j, w)
        ensures log[j].value.id != log[n].value.id
      {
        var i := FirstOccurrence(log, j, w);
        assert i in Counted(log, n, w);
      }
    }
  }

  /** Every entry of a window has a counted entry with its id at or before it. */
  lemma {:induction false} FirstOccurrence(log: Log, j: nat, w: Time) returns (i: nat)
    requires InWindow(log, j, w)
    ensures i <= j && FirstInWindow(log, i, w) && log[i].value.id == log[j].value.id
  {
    if FirstInWindow(log, j, w) {
      i := j;
    } else {
      var k :| 0 <= k < j && InWindow(log, k, w) && log[k].value.id == log[j].value.id;
      i := FirstOccurrence(log, k, w);
    }
  }

  /** A window's first event makes a window that equals its reference. */
  lemma {:induction false} FirstEventHolds(log: Log, n: nat, w: Time, mode: HllMode)
    requires InWindow(log, n, w) && forall j :: 0 <= j < n ==> !InWindow(log, j, w)
    ensures WindowHolds(log, n + 1, w, AddEvent(FreshWindow(n), log[n].value, n, mode), mode)
  {
    hide WindowStart, BumpAll;
    assert Counted(log, n, w) == {};
    assert forall c :: CountedIn(log, n, w, c) == {};
    assert FirstInWindow(log, n, w);
    BumpAllHolds(log, n, w, map[], mode);
    assert Counted(log, n + 1, w) == {n};
  }

  /** Entries outside the window, and repeated ids, leave its reference alone. */
  lemma {:induction false} WindowHoldsSkips(log: Log, n: nat, w: Time, win: Window, mode: HllMode)
    requires WindowHolds(log, n, w, win, mode) && !FirstInWindow(log, n, w)
    ensures WindowHolds(log, n + 1, w, win, mode)
  {
    hide WindowStart;
    CountedSkips(log, n, w);
  }

  /** A repeated id leaves a window's reference alone. */
  lemma {:induction false} RepeatHolds(log: Log, n: nat, w: Time, win: Window, mode: HllMode)
    requires WindowHolds(log, n, w, win, mode) && InWindow(log, n, w) && log[n].value.id in win.seenIds
    ensures WindowHolds(log, n + 1, w, win, mode)
  {
    hide WindowStart, CellsHold;
    NewIdIsFirst(log, n, w);
    WindowHoldsSkips(log, n, w, win, mode);
  }
}
