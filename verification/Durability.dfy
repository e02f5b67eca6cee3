/** What the checkpoint protocol promises about the stored tables over whole
    runs: rows are written once, windows freeze, progress never goes back. */
module Durability {
  import opened Collections
  import opened Windows
  import opened Hierarchy
  import opened Sketches
  import opened Aggregates
  import opened Partitions
  import opened Storage
  import opened Protocol

  /** `later` keeps every row of `earlier`, adds none to a window the earlier
      watermark covers, and its progress is no smaller. */
  ghost predicate Extends(earlier: Table, later: Table) {
    && (forall key :: key in earlier.rows ==> key in later.rows && later.rows[key] == earlier.rows[key])
    && (forall key :: key in later.rows && Covered(earlier, WindowEnd(key.start)) ==> key in earlier.rows)
    && (earlier.progress.Some? ==>
          && later.progress.Some?
          && earlier.progress.value.offset <= later.progress.value.offset
          && earlier.progress.value.flushed <= later.progress.value.flushed)
  }

  lemma {:induction false} CommitExtends(log: Log, hash: Hasher, s: State)
    requires Inv(log, hash, s) && s.batch.Some?
    ensures Extends(s.table, Committed(log, s).table)
    ensures forall key :: key in NewRows(s.batch.value.closed) ==> key !in s.table.rows
  {
    hide WindowHolds, StoredHolds, WindowStart, NewRows, RowOf, Tracks;
    var b := s.batch.value;
    var some := Pick(b.closed.Keys);
    assert TakenSound(log, s.table, b, some);
    forall key | key in NewRows(b.closed)
      ensures !Covered(s.table, WindowEnd(key.start)) && key !in s.table.rows
    {
      NewRowsAt(b.closed, key);
      assert TakenSound(log, s.table, b, key.start);
    }
  }

  lemma {:induction false} StepExtends(log: Log, hash: Hasher, s: State, a: Action)
    requires Inv(log, hash, s) && Enabled(log, s, a)
    ensures Extends(s.table, Apply(log, hash, s, a).table)
  {
    if a.Commit? {
      CommitExtends(log, hash, s);
    }
  }

  /** Over any run, with any number of crashes: no stored row changes or
      disappears, a covered window gains no row, and neither the stored offset
      nor the stored watermark decreases. */
  lemma {:induction false} RunExtends(log: Log, hash: Hasher, s: State, acts: seq<Action>)
    requires Inv(log, hash, s) && Runs(log, hash, s, acts)
    ensures Extends(s.table, Exec(log, hash, s, acts).table)
    decreases |acts|
  {
    hide Inv, Enabled, Apply;
    if |acts| > 0 {
      StepInv(log, hash, s, acts[0]);
      StepExtends(log, hash, s, acts[0]);
      RunExtends(log, hash, Apply(log, hash, s, acts[0]), acts[1..]);
    }
  }

  /** How many times a run writes the row with this primary key. */
  ghost function WriteCount(log: Log, hash: Hasher, s: State, acts: seq<Action>, key: RowKey): nat
    requires Runs(log, hash, s, acts)
    decreases |acts|
  {
    if |acts| == 0 then 0
    else (if acts[0].Commit? && key in NewRows(s.batch.value.closed) then 1 else 0)
         + WriteCount(log, hash, Apply(log, hash, s, acts[0]), acts[1..], key)
  }

  /** Each row is written at most once, and never if it is already there. */
  lemma {:induction false} WrittenOnce(log: Log, hash: Hasher, s: State, acts: seq<Action>, key: RowKey)
    requires Inv(log, hash, s) && Runs(log, hash, s, acts)
    ensures WriteCount(log, hash, s, acts, key) <= if key in s.table.rows then 0 else 1
    decreases |acts|
  {
    hide Inv, NewRows;
    if |acts| > 0 {
      StepInv(log, hash, s, acts[0]);
      StepExtends(log, hash, s, acts[0]);
      WrittenOnce(log, hash, Apply(log, hash, s, acts[0]), acts[1..], key);
      if acts[0].Commit? {
        CommitBringsRows(log, hash, s, key);
      }
    }
  }

  lemma {:induction false} CommitBringsRows(log: Log, hash: Hasher, s: State, key: RowKey)
    requires Inv(log, hash, s) && s.batch.Some?
    ensures key in NewRows(s.batch.value.closed) ==> key !in s.table.rows && key in Committed(log, s).table.rows
  {
  }

  /** Exactly-once content: after any interleaving, a stored row is the fold over
      first occurrences per event id of its window's events below the position
      the window was taken at, with the sketch, if any, of exactly its users. */
  lemma {:induction false} ExactlyOnce(log: Log, hash: Hasher, acts: seq<Action>, key: RowKey)
    requires Runs(log, hash, INIT, acts) && key in Exec(log, hash, INIT, acts).table.rows
    ensures var s := Exec(log, hash, INIT, acts);
            && key.start in s.trace.taken
            && RowHolds(log, hash, s.trace.taken[key.start], key.start, key.cell, s.table.rows[key])
  {
    hide MemSound, BatchSound, RowHolds, Runs, Exec, CountedIn;
    InitInv(log, hash);
    RunInv(log, hash, INIT, acts);
    assert key == RowKey(key.start, key.cell);
  }

  /** In memory, with sketches on, every open cell's registers are the sketch of
      its exact user set, in every reachable state. */
  lemma {:induction false} LiveSketchAgrees(log: Log, hash: Hasher, acts: seq<Action>, w: Time, c: CellKey)
    requires Runs(log, hash, INIT, acts)
    requires var s := Exec(log, hash, INIT, acts);
             s.mem.Some? && s.mem.value.mode.HllOn? && w in s.mem.value.open && c in s.mem.value.open[w].cells
    ensures var p := Exec(log, hash, INIT, acts).mem.value;
            var agg := p.open[w].cells[c];
            && agg.users == UsersIn(log, p.nextOffset, w, c)
            && agg.hll.Some? && Summarises(hash, agg.hll.value, agg.users)
  {
    hide TableSound, BatchSound, Runs, Exec, Summarises, CountedIn, UsersIn;
    InitInv(log, hash);
    RunInv(log, hash, INIT, acts);
    var p := Exec(log, hash, INIT, acts).mem.value;
    assert TracksWindow(log, p, w);
    assert CellHolds(log, p.nextOffset, w, c, p.open[w].cells[c], p.mode);
  }

  /** At most two windows stay open after a take, in every reachable state. */
  lemma {:induction false} MemoryBound(log: Log, hash: Hasher, acts: seq<Action>)
    requires Runs(log, hash, INIT, acts) && Exec(log, hash, INIT, acts).mem.Some?
    ensures |AfterTake(Exec(log, hash, INIT, acts).mem.value).open| <= 2
  {
    hide Tracks, AfterTake, Runs, Exec;
    InitInv(log, hash);
    RunInv(log, hash, INIT, acts);
    AtMostTwoOpen(log, Exec(log, hash, INIT, acts).mem.value);
  }

  /** From every reachable state, an effective idle tick ninety seconds past the
      newest timestamp and a take leave nothing open, and everything consumed safe. */
  lemma {:induction false} DrainsFromAnywhere(log: Log, hash: Hasher, acts: seq<Action>, nowWall: Time, nowUtc: Time)
    requires Runs(log, hash, INIT, acts) && Exec(log, hash, INIT, acts).mem.Some?
    requires var p := Exec(log, hash, INIT, acts).mem.value;
             TickTakesEffect(p, nowWall, nowUtc) && nowUtc >= p.maxTs + WINDOW_SIZE + ALLOWED_LATENESS
    ensures var p := Exec(log, hash, INIT, acts).mem.value;
            var drained := AfterTake(Ticked(p, nowWall, nowUtc));
            drained.open == map[] && CommittedOffset(drained) == p.nextOffset
  {
    hide Tracks, AfterTake, Runs, Exec, CommittedOffset;
    InitInv(log, hash);
    RunInv(log, hash, INIT, acts);
    DrainBound(log, Exec(log, hash, INIT, acts).mem.value, nowWall, nowUtc);
  }

  // ---------- Sketch columns ----------

  /** Every resume turns sketches on, or every one leaves them off. */
  predicate ResumesUse(acts: seq<Action>, on: bool) {
    forall i :: 0 <= i < |acts| && acts[i].Assign? ==> acts[i].hll == on
  }

  ghost predicate ColumnsAre(s: State, on: bool) {
    && (s.mem.Some? ==> s.mem.value.mode.HllOn? == on)
    && (s.batch.Some? ==> s.batch.value.mode.HllOn? == on)
    && forall key :: key in s.table.rows ==> s.table.rows[key].hll.Some? == on
  }

  lemma {:induction false} CommitColumns(log: Log, hash: Hasher, s: State, on: bool)
    requires Inv(log, hash, s) && s.batch.Some? && ColumnsAre(s, on)
    ensures ColumnsAre(Committed(log, s), on)
  {
    hide Inv, NewRows, LeftOut;
    var b, rows := s.batch.value, Committed(log, s).table.rows;
    forall key | key in rows
      ensures rows[key].hll.Some? == on
    {
      NewRowsAt(b.closed, key);
      if key in NewRows(b.closed) {
        CommitStores(log, hash, s, key.start);
        assert key == RowKey(key.start, key.cell);
        assert ColumnHolds(hash, b.mode, rows[key].hll, UsersIn(log, b.takenAt, key.start, key.cell));
      }
    }
  }

  lemma {:induction false} StepColumns(log: Log, hash: Hasher, s: State, a: Action, on: bool)
    requires Inv(log, hash, s) && Enabled(log, s, a) && ColumnsAre(s, on) && (a.Assign? ==> a.hll == on)
    ensures ColumnsAre(Apply(log, hash, s, a), on)
  {
    hide Inv, Committed, WindowStart, AddEvent, CommittedOffset;
    if a.Commit? {
      CommitColumns(log, hash, s, on);
    }
  }

  lemma {:induction false} RunColumns(log: Log, hash: Hasher, s: State, acts: seq<Action>, on: bool)
    requires Inv(log, hash, s) && Runs(log, hash, s, acts) && ColumnsAre(s, on) && ResumesUse(acts, on)
    ensures ColumnsAre(Exec(log, hash, s, acts), on)
    decreases |acts|
  {
    hide Inv, Enabled, Apply, ColumnsAre;
    if |acts| > 0 {
      StepInv(log, hash, s, acts[0]);
      StepColumns(log, hash, s, acts[0], on);
      RunColumns(log, hash, Apply(log, hash, s, acts[0]), acts[1..], on);
    }
  }

  /** Over runs whose resumes all turn sketches on, every stored row has the
      column of exactly the users it counts; with all off, none has a column. */
  lemma {:induction false} StoredColumns(log: Log, hash: Hasher, acts: seq<Action>, on: bool, key: RowKey)
    requires Runs(log, hash, INIT, acts) && ResumesUse(acts, on)
    requires key in Exec(log, hash, INIT, acts).table.rows
    ensures var s := Exec(log, hash, INIT, acts);
            && key.start in s.trace.taken
            && ColumnHolds(hash, if on then HllOn(hash) else HllOff, s.table.rows[key].hll,
                           UsersIn(log, s.trace.taken[key.start], key.start, key.cell))
  {
    hide Inv, Runs, Exec, Summarises, UsersIn, CountedIn, Pow2;
    InitInv(log, hash);
    RunColumns(log, hash, INIT, acts, on);
    ExactlyOnce(log, hash, acts, key);
    RegisterCount();
  }
}
