/** The checkpoint protocol of one partition as a state machine over its steps:
    the consumer loop (crates/aggregator/src/main.rs), the flush and idle loops
    (flush.rs), the commit transaction (db.rs) and rebalancing (rebalance.rs).

    The flush loop takes the closed windows under the lock and commits them
    later, so deliveries, ticks and even a revoke interleave between `Take` and
    `Commit`: the batch lives in the flush loop, not in the partition's state. */
module Protocol {
  import opened Collections
  import opened Windows
  import opened Sketches
  import opened Aggregates
  import opened Partitions
  import opened Storage

  /** Windows taken for writing and not committed yet. The rest is history: the
      read position, the sketch setting and this incarnation's `late` and
      `failed` at the take, and whether a later incarnation has begun since. */
  datatype Batch = Batch(closed: map<Time, Window>, offset: nat, flushed: Time, takenAt: nat, mode: HllMode,
                         late: set<int>, failed: set<Time>, outlived: bool)

  /** History. No guard and no other field ever reads it.
      - `taken`: for each stored window, the read position when it was taken;
      - `late`: entries this incarnation dropped as Late though the stored
        watermark had not reached their window;
      - `dropped`: entries a commit left out for good: Late, or not read yet;
      - `rejected`: entries some delivery, in any incarnation, judged Late;
      - `failed`: windows this incarnation lost to a failed flush. */
  datatype Trace = Trace(taken: map<Time, nat>, late: set<int>, dropped: set<int>, rejected: set<int>,
                         failed: set<Time>)

  /** `pos` is the consumer's position; `mem` is absent while unassigned. */
  datatype State = State(table: Table, mem: Option<Partition>, pos: nat, batch: Option<Batch>, trace: Trace)

  datatype Action =
    | Deliver(wall: Time)
    | Tick(nowWall: Time, nowUtc: Time)
    | Take
    | Commit
    | FlushFails
    | Revoke
    | Crash
    | Assign(loaded: bool, now: Time, wall: Time, hll: bool)

  const INIT: State := State(Table(map[], None), None, 0, None, Trace(map[], {}, {}, {}, {}))

  predicate Enabled(log: Log, s: State, a: Action) {
    match a
    case Deliver(_) => s.mem.Some? && s.pos < |log|
    case Tick(_, _) => s.mem.Some?
    case Take => s.mem.Some? && s.batch.None?
    case Commit => s.batch.Some?
    case FlushFails => s.batch.Some?
    case Revoke => s.mem.Some?
    case Crash => s.mem.Some? || s.batch.Some?
    case Assign(_, _, _, _) => s.mem.None?
  }

  /** Where an assigned partition resumes: the stored progress, or the start of
      the log with a watermark a day old when there is none or it cannot be read. */
  function ResumePoint(table: Table, loaded: bool, now: Time): Progress {
    if loaded && table.progress.Some? then table.progress.value else Progress(0, now - DAY)
  }

  /** Entries whose window commit `b` closes without counting them. */
  function LeftOut(log: Log, s: State, b: Batch): set<int> {
    set i | 0 <= i < |log| && IsEvent(log, i) && EndAt(log, i) <= b.flushed && !Covered(s.table, EndAt(log, i))
            && (i in b.late || b.takenAt <= i)
  }

  function Delivered(log: Log, s: State, wall: Time): State
    requires s.mem.Some? && s.pos < |log|
  {
    if log[s.pos].None? then s.(pos := s.pos + 1)
    else
      var p, e := s.mem.value, log[s.pos].value;
      var judged := if OutcomeOf(p, e).Late? then {s.pos} else {};
      s.(mem := Some(Processed(p, e, s.pos, wall)),
         pos := s.pos + 1,
         trace := s.trace.(late := s.trace.late + if Covered(s.table, EndAt(log, s.pos)) then {} else judged,
                           rejected := s.trace.rejected + judged))
  }

  ghost function Taken(s: State): State
    requires s.mem.Some?
  {
    var p := AfterTake(s.mem.value);
    var closed := Closed(s.mem.value);
    s.(mem := Some(p),
       batch := if closed.Keys == {} then None
                else Some(Batch(closed, CommittedOffset(p), p.flushed, p.nextOffset, p.mode,
                                s.trace.late, s.trace.failed, false)))
  }

  function Committed(log: Log, s: State): State
    requires s.batch.Some?
  {
    var b := s.batch.value;
    s.(table := Flushed(s.table, b.closed, b.offset, b.flushed),
       batch := None,
       trace := s.trace.(taken := s.trace.taken + (map w | w in b.closed :: b.takenAt),
                         dropped := s.trace.dropped + LeftOut(log, s, b)))
  }

  /** The transaction fails: its windows are gone from memory and not stored. */
  function FlushFailed(s: State): State
    requires s.batch.Some?
  {
    var b := s.batch.value;
    s.(batch := None, trace := s.trace.(failed := s.trace.failed + if b.outlived then {} else b.closed.Keys))
  }

  function Assigned(hash: Hasher, s: State, a: Action): State
    requires a.Assign?
  {
    var from := ResumePoint(s.table, a.loaded, a.now);
    s.(mem := Some(ResumeFrom(from.offset, from.flushed, a.wall, if a.hll then HllOn(hash) else HllOff)),
       pos := from.offset,
       batch := if s.batch.Some? then Some(s.batch.value.(outlived := true)) else None,
       trace := s.trace.(late := {}, failed := {}))
  }

  ghost function Apply(log: Log, hash: Hasher, s: State, a: Action): State
    requires Enabled(log, s, a)
  {
    match a
    case Deliver(wall) => Delivered(log, s, wall)
    case Tick(nowWall, nowUtc) => s.(mem := Some(Ticked(s.mem.value, nowWall, nowUtc)))
    case Take => Taken(s)
    case Commit => Committed(log, s)
    case FlushFails => FlushFailed(s)
    case Revoke => s.(mem := None)
    case Crash => s.(mem := None, batch := None)
    case Assign(_, _, _, _) => Assigned(hash, s, a)
  }

  /** The stored watermark, or the one of the commit in flight, reaches `t`. */
  predicate Reached(s: State, t: Time) {
    Covered(s.table, t) || (s.batch.Some? && t <= s.batch.value.flushed)
  }

  /** Watermark `t` is past every window of the log that is stored or about to
      be, so memory that starts at `t` opens none of them again. */
  ghost predicate Passed(log: Log, s: State, t: Time) {
    forall i :: IsEvent(log, i) && Reached(s, EndAt(log, i)) ==> EndAt(log, i) <= t
  }

  /** The watermark a partition resumes from is past what its previous owner
      stored and what it may still commit. */
  ghost predicate Harmless(log: Log, s: State, a: Action)
    requires a.Assign?
  {
    Passed(log, s, ResumePoint(s.table, a.loaded, a.now).flushed)
  }

  // ---------- Runs ----------

  /** The steps can be taken in this order, and each resume is harmless. */
  ghost predicate Runs(log: Log, hash: Hasher, s: State, acts: seq<Action>)
    decreases |acts|
  {
    |acts| > 0 ==>
      && Enabled(log, s, acts[0])
      && (acts[0].Assign? ==> Harmless(log, s, acts[0]))
      && Runs(log, hash, Apply(log, hash, s, acts[0]), acts[1..])
  }

  ghost function Exec(log: Log, hash: Hasher, s: State, acts: seq<Action>): State
    requires Runs(log, hash, s, acts)
    decreases |acts|
  {
    if |acts| == 0 then s else Exec(log, hash, Apply(log, hash, s, acts[0]), acts[1..])
  }

  // ---------- The invariant ----------

  /** Every stored window holds exactly the first occurrences per event id
      below the position it was taken at, and the resume offset skips nothing
      the stored watermark does not cover. */
  ghost predicate TableSound(log: Log, hash: Hasher, table: Table, taken: map<Time, nat>) {
    && (forall key :: key in table.rows ==> key.start in taken)
    && (forall w :: w in taken ==>
          Covered(table, WindowEnd(w)) && taken[w] <= |log| && StoredHolds(log, hash, taken[w], w, table.rows))
    && (table.progress.Some? ==> OffsetSound(log, table.progress.value.offset, table.progress.value.flushed))
  }

  ghost predicate OffsetSound(log: Log, offset: nat, flushed: Time) {
    && offset <= |log|
    && forall i :: 0 <= i < offset && IsEvent(log, i) ==> EndAt(log, i) <= flushed
  }

  /** Memory is what the consumed part of the log makes it. */
  ghost predicate MemTracks(log: Log, hash: Hasher, s: State)
    requires s.mem.Some?
  {
    var p := s.mem.value;
    && Tracks(log, p)
    && ModeUses(p.mode, hash)
    && p.nextOffset <= s.pos <= |log|
    && (forall i :: p.nextOffset <= i < s.pos ==> log[i].None?)
  }

  ghost predicate MemSound(log: Log, hash: Hasher, s: State)
    requires s.mem.Some?
  {
    MemTracks(log, hash, s) && Passed(log, s, s.mem.value.flushed)
  }

  ghost predicate BatchSound(log: Log, hash: Hasher, s: State)
    requires s.batch.Some?
  {
    var b := s.batch.value;
    && b.closed.Keys != {} && ModeUses(b.mode, hash) && b.takenAt <= |log|
    && (forall w :: w in b.closed ==> TakenSound(log, s.table, b, w))
    && b.offset <= b.takenAt && OffsetSound(log, b.offset, b.flushed)
    && (s.table.progress.Some? ==> s.table.progress.value.offset <= b.offset)
  }

  ghost predicate TakenSound(log: Log, table: Table, b: Batch, w: Time)
    requires w in b.closed
  {
    && WindowHolds(log, b.takenAt, w, b.closed[w], b.mode)
    && WindowEnd(w) <= b.flushed
    && !Covered(table, WindowEnd(w))
  }

  ghost predicate Inv(log: Log, hash: Hasher, s: State) {
    && TableSound(log, hash, s.table, s.trace.taken)
    && (s.mem.Some? ==> MemSound(log, hash, s))
    && (s.batch.Some? ==> BatchSound(log, hash, s))
  }

  lemma {:induction false} InitInv(log: Log, hash: Hasher)
    ensures Inv(log, hash, INIT)
  {
  }

  /** Reading on keeps memory equal to the log's reference, and keeps its
      watermark, whether or not that watermark is past the stored windows. */
  lemma {:induction false} DeliverTracks(log: Log, hash: Hasher, s: State, wall: Time)
    requires s.mem.Some? && MemTracks(log, hash, s) && s.pos < |log|
    ensures Delivered(log, s, wall).mem.Some? && MemTracks(log, hash, Delivered(log, s, wall))
    ensures Delivered(log, s, wall).mem.value.flushed == s.mem.value.flushed
  {
    hide WindowHolds, WindowStart;
    var p := s.mem.value;
    if log[s.pos].Some? {
      SkipTracks(log, p, s.pos);
      ProcessTracks(log, p.(nextOffset := s.pos), wall);
      assert Processed(p.(nextOffset := s.pos), log[s.pos].value, s.pos, wall)
          == Processed(p, log[s.pos].value, s.pos, wall);
    }
  }

  lemma {:induction false} DeliverInv(log: Log, hash: Hasher, s: State, wall: Time)
    requires Inv(log, hash, s) && s.mem.Some? && s.pos < |log|
    ensures Inv(log, hash, Delivered(log, s, wall))
  {
    hide Tracks, TableSound, WindowHolds, WindowStart;
    DeliverTracks(log, hash, s, wall);
  }

  lemma {:induction false} TickInv(log: Log, hash: Hasher, s: State, nowWall: Time, nowUtc: Time)
    requires Inv(log, hash, s) && s.mem.Some?
    ensures Inv(log, hash, s.(mem := Some(Ticked(s.mem.value, nowWall, nowUtc))))
  {
    hide Tracks, StoredHolds, WindowHolds, WindowStart;
    TickTracks(log, s.mem.value, nowWall, nowUtc);
  }

  /** The offset a take computes never falls behind the stored one: some
      closed window has an event at or past it, and so has every open window. */
  lemma {:induction false} TakeOffsetGrows(log: Log, hash: Hasher, s: State)
    requires Inv(log, hash, s) && s.mem.Some? && s.table.progress.Some?
    requires Closed(s.mem.value).Keys != {}
    ensures s.table.progress.value.offset <= CommittedOffset(AfterTake(s.mem.value))
  {
  }

  /** No open window is stored or about to be: it has an event past the watermark. */
  lemma {:induction false} OpenNotReached(log: Log, hash: Hasher, s: State, w: Time)
    requires s.mem.Some? && MemSound(log, hash, s) && w in s.mem.value.open
    ensures !Reached(s, WindowEnd(w))
  {
    hide WindowStart, CellsHold;
    assert TracksWindow(log, s.mem.value, w);
    assert EndAt(log, s.mem.value.open[w].minOffset) == WindowEnd(w);
  }

  lemma {:induction false} TakeInv(log: Log, hash: Hasher, s: State)
    requires Inv(log, hash, s) && s.mem.Some? && s.batch.None?
    ensures Inv(log, hash, Taken(s))
  {
    hide WindowHolds, StoredHolds, WindowStart, CommittedOffset;
    var p, q, t := s.mem.value, AfterTake(s.mem.value), Taken(s);
    TakeTracks(log, p);
    CommittedOffsetSafe(log, q);
    if t.batch.Some? {
      var b := t.batch.value;
      forall w | w in b.closed
        ensures TakenSound(log, t.table, b, w)
      {
        assert TracksWindow(log, p, w);
        OpenNotReached(log, hash, s, w);
      }
      if s.table.progress.Some? {
        TakeOffsetGrows(log, hash, s);
      }
    }
  }

  lemma {:induction false} CommitKeepsStored(log: Log, hash: Hasher, s: State, w: Time)
    requires Inv(log, hash, s) && s.batch.Some? && w in s.trace.taken
    ensures w !in s.batch.value.closed
    ensures forall c :: RowKey(w, c) in Committed(log, s).table.rows <==> RowKey(w, c) in s.table.rows
    ensures forall c :: RowKey(w, c) in s.table.rows ==>
              Committed(log, s).table.rows[RowKey(w, c)] == s.table.rows[RowKey(w, c)]
  {
  }

  lemma {:induction false} CommitStores(log: Log, hash: Hasher, s: State, w: Time)
    requires Inv(log, hash, s) && s.batch.Some? && w in s.batch.value.closed
    ensures StoredHolds(log, hash, s.batch.value.takenAt, w, Committed(log, s).table.rows)
    ensures var b, rows := s.batch.value, Committed(log, s).table.rows;
            forall c :: RowKey(w, c) in rows ==>
              ColumnHolds(hash, b.mode, rows[RowKey(w, c)].hll, UsersIn(log, b.takenAt, w, c))
  {
    hide WindowHolds, StoredHolds, WindowStart, NewRows, RowOf, ColumnHolds;
    var b := s.batch.value;
    assert TakenSound(log, s.table, b, w);
    assert w !in s.trace.taken;
    WriteStores(log, hash, b.takenAt, w, b.closed, s.table.rows, b.mode);
    forall c | RowKey(w, c) in Committed(log, s).table.rows
      ensures c in b.closed[w].cells
    {
      NewRowsAt(b.closed, RowKey(w, c));
    }
  }

  lemma {:induction false} CommitInv(log: Log, hash: Hasher, s: State)
    requires Inv(log, hash, s) && s.batch.Some?
    ensures Inv(log, hash, Committed(log, s))
  {
    hide WindowHolds, WindowStart, NewRows, RowOf, RowHolds, CountedIn;
    var b, t := s.batch.value, Committed(log, s);
    var some := Pick(b.closed.Keys);
    assert TakenSound(log, s.table, b, some);
    forall w | w in t.trace.taken
      ensures Covered(t.table, WindowEnd(w)) && t.trace.taken[w] <= |log|
      ensures StoredHolds(log, hash, t.trace.taken[w], w, t.table.rows)
    {
      if w in b.closed {
        assert TakenSound(log, s.table, b, w);
        CommitStores(log, hash, s, w);
      } else {
        CommitKeepsStored(log, hash, s, w);
      }
    }
    forall key | key in t.table.rows
      ensures key.start in t.trace.taken
    {
      NewRowsAt(b.closed, key);
    }
  }

  lemma {:induction false} AssignInv(log: Log, hash: Hasher, s: State, a: Action)
    requires Inv(log, hash, s) && s.mem.None? && a.Assign? && Harmless(log, s, a)
    ensures Inv(log, hash, Assigned(hash, s, a))
  {
  }

  /** Every step of the protocol keeps the invariant. */
  lemma {:induction false} StepInv(log: Log, hash: Hasher, s: State, a: Action)
    requires Inv(log, hash, s) && Enabled(log, s, a) && (a.Assign? ==> Harmless(log, s, a))
    ensures Inv(log, hash, Apply(log, hash, s, a))
  {
    hide TableSound, MemSound, BatchSound, Delivered, Taken, Committed, Assigned, FlushFailed;
    match a
    case Deliver(wall) => DeliverInv(log, hash, s, wall);
    case Tick(nowWall, nowUtc) => TickInv(log, hash, s, nowWall, nowUtc);
    case Take => TakeInv(log, hash, s);
    case Commit => CommitInv(log, hash, s);
    case FlushFails => DiscardInv(log, hash, s);
    case Revoke => RevokeInv(log, hash, s);
    case Crash =>
    case Assign(_, _, _, _) => AssignInv(log, hash, s, a);
  }

  lemma {:induction false} RevokeInv(log: Log, hash: Hasher, s: State)
    requires Inv(log, hash, s)
    ensures Inv(log, hash, s.(mem := None))
  {
  }

  lemma {:induction false} DiscardInv(log: Log, hash: Hasher, s: State)
    requires Inv(log, hash, s) && s.batch.Some?
    ensures Inv(log, hash, FlushFailed(s))
  {
  }

  /** Exactly-once content: after any interleaving of deliveries, ticks, takes,
      commits, failed flushes, crashes and resumes, every stored row is the fold
      over first occurrences below the position its window was taken at. */
  lemma {:induction false} RunInv(log: Log, hash: Hasher, s: State, acts: seq<Action>)
    requires Inv(log, hash, s) && Runs(log, hash, s, acts)
    ensures Inv(log, hash, Exec(log, hash, s, acts))
    decreases |acts|
  {
    hide Inv, Enabled, Apply;
    if |acts| > 0 {
      StepInv(log, hash, s, acts[0]);
      RunInv(log, hash, Apply(log, hash, s, acts[0]), acts[1..]);
    }
  }
}
