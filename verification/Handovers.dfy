/** When a partition may change hands: the exact condition on a resume under
    which the stored tables keep every promise, over all continuations. */
module Handovers {
  import opened Collections
  import opened Windows
  import opened Hierarchy
  import opened Sketches
  import opened Aggregates
  import opened Partitions
  import opened Storage
  import opened Protocol
  import opened Durability

  // ---------- A run that stores a window ----------

  lemma {:induction false} Prepend(log: Log, hash: Hasher, s: State, a: Action, acts: seq<Action>)
    requires Enabled(log, s, a) && (a.Assign? ==> Harmless(log, s, a))
    requires Runs(log, hash, Apply(log, hash, s, a), acts)
    ensures Runs(log, hash, s, [a] + acts)
    ensures Exec(log, hash, s, [a] + acts) == Exec(log, hash, Apply(log, hash, s, a), acts)
    ensures forall key :: WriteCount(log, hash, s, [a] + acts, key) >=
                          WriteCount(log, hash, Apply(log, hash, s, a), acts, key)
  {
    hide Enabled, Apply, Harmless;
    assert ([a] + acts)[1..] == acts;
  }

  /** What `ReadAndFlush` leaves: entry `i`'s window is stored with a row for
      the global cell, from memory that had read every event of the log, and
      the stored watermark has reached `t`. */
  ghost predicate StoredFrom(log: Log, e: State, i: int, t: Time)
    requires IsEvent(log, i)
  {
    && RowKey(StartAt(log, i), GLOBAL) in e.table.rows
    && StartAt(log, i) in e.trace.taken
    && (forall j :: IsEvent(log, j) ==> j < e.trace.taken[StartAt(log, i)])
    && Covered(e.table, t)
  }

  /** From memory whose watermark has not passed entry `i`'s window, reading to
      the end of the log, an idle tick, a take and a commit store that window. */
  lemma {:induction false} ReadAndFlush(log: Log, hash: Hasher, s: State, i: int, t: Time) returns (acts: seq<Action>)
    requires s.mem.Some? && s.batch.None? && MemTracks(log, hash, s)
    requires IsEvent(log, i) && EndAt(log, i) > s.mem.value.flushed
    ensures Runs(log, hash, s, acts) && StoredFrom(log, Exec(log, hash, s, acts), i, t)
    ensures WriteCount(log, hash, s, acts, RowKey(StartAt(log, i), GLOBAL)) > 0
    decreases |log| - s.pos
  {
    hide WindowStart, Tracks, WindowHolds, Delivered;
    if s.pos < |log| {
      DeliverTracks(log, hash, s, 0);
      DeliveredKeeps(log, s, 0);
      var rest := ReadAndFlush(log, hash, Delivered(log, s, 0), i, t);
      acts := [Deliver(0)] + rest;
      Prepend(log, hash, s, Deliver(0), rest);
    } else {
      acts := FlushAll(log, hash, s, i, t);
    }
  }

  lemma {:induction false} DeliveredKeeps(log: Log, s: State, wall: Time)
    requires s.mem.Some? && s.pos < |log|
    ensures var d := Delivered(log, s, wall); d.batch == s.batch && d.pos == s.pos + 1 && d.table == s.table
  {
  }

  /** A clock reading that closes every open window and reaches `t`. */
  function ClosingTime(p: Partition, end: Time, t: Time): Time {
    Max(p.maxTs + 1, Max(end, t) + ALLOWED_LATENESS)
  }

  lemma {:induction false} FlushAll(log: Log, hash: Hasher, s: State, i: int, t: Time) returns (acts: seq<Action>)
    requires s.mem.Some? && s.batch.None? && MemTracks(log, hash, s) && s.pos == |log|
    requires IsEvent(log, i) && EndAt(log, i) > s.mem.value.flushed
    ensures Runs(log, hash, s, acts) && StoredFrom(log, Exec(log, hash, s, acts), i, t)
    ensures WriteCount(log, hash, s, acts, RowKey(StartAt(log, i), GLOBAL)) > 0
  {
    hide WindowStart, WindowHolds, Taken, Committed, NewRows;
    var p, w := s.mem.value, StartAt(log, i);
    var tick := Tick(p.lastWall + IDLE_PARTITION_TIMEOUT + 1, ClosingTime(p, WindowEnd(w), t));
    var s1 := Apply(log, hash, s, tick);
    TakenAll(log, hash, s1, i, t);
    var s2 := Apply(log, hash, s1, Take);
    CommittedAll(log, hash, s2, i, t);
    assert Runs(log, hash, Apply(log, hash, s2, Commit), []);
    Prepend(log, hash, s2, Commit, []);
    Prepend(log, hash, s1, Take, [Commit] + []);
    acts := [tick] + ([Take] + ([Commit] + []));
    Prepend(log, hash, s, tick, [Take] + ([Commit] + []));
  }

  /** The batch holds entry `i`'s window, read to the end of the log. */
  ghost predicate BatchHas(log: Log, s: State, i: int, t: Time)
    requires IsEvent(log, i)
  {
    && s.batch.Some? && t <= s.batch.value.flushed && StartAt(log, i) in s.batch.value.closed
    && (forall j :: IsEvent(log, j) ==> j < s.batch.value.takenAt)
    && GLOBAL in s.batch.value.closed[StartAt(log, i)].cells
  }

  lemma {:induction false} TakenAll(log: Log, hash: Hasher, s: State, i: int, t: Time)
    requires s.mem.Some? && s.batch.None? && MemTracks(log, hash, s) && s.pos == |log|
    requires IsEvent(log, i) && s.mem.value.flushed < EndAt(log, i) <= Watermark(s.mem.value)
    requires t <= Watermark(s.mem.value)
    ensures BatchHas(log, Taken(s), i, t)
  {
    hide WindowStart, CommittedOffset;
    var p, w := s.mem.value, StartAt(log, i);
    assert i < p.nextOffset;
    assert TracksWindow(log, p, w);
    var j := FirstOccurrence(log, i, w);
    assert CellsForEvent(log[j].value)[0] == GLOBAL;
    assert j in CountedIn(log, p.nextOffset, w, GLOBAL);
    assert w in Closed(p).Keys;
  }

  lemma {:induction false} CommittedAll(log: Log, hash: Hasher, s: State, i: int, t: Time)
    requires IsEvent(log, i) && BatchHas(log, s, i, t)
    ensures StoredFrom(log, Committed(log, s), i, t)
    ensures RowKey(StartAt(log, i), GLOBAL) in NewRows(s.batch.value.closed)
  {
    hide WindowStart, NewRows;
    NewRowsAt(s.batch.value.closed, RowKey(StartAt(log, i), GLOBAL));
  }

  // ---------- The condition on a resume ----------

  /** What the tables are promised over a run: rows persist, covered windows gain
      none and progress is monotone; no row is written twice, nor one that is
      there; every row is exactly-once content, and the offset skips nothing. */
  ghost predicate KeepsPromises(log: Log, hash: Hasher, s: State, acts: seq<Action>)
    requires Runs(log, hash, s, acts)
  {
    var e := Exec(log, hash, s, acts);
    && Extends(s.table, e.table)
    && (forall key :: WriteCount(log, hash, s, acts, key) <= if key in s.table.rows then 0 else 1)
    && TableSound(log, hash, e.table, e.trace.taken)
  }

  lemma {:induction false} InvKeepsPromises(log: Log, hash: Hasher, s: State, acts: seq<Action>)
    requires Inv(log, hash, s) && Runs(log, hash, s, acts)
    ensures KeepsPromises(log, hash, s, acts)
  {
    hide TableSound, MemSound, BatchSound, Runs, Exec, WriteCount, Extends;
    RunInv(log, hash, s, acts);
    RunExtends(log, hash, s, acts);
    forall key
      ensures WriteCount(log, hash, s, acts, key) <= if key in s.table.rows then 0 else 1
    {
      WrittenOnce(log, hash, s, acts, key);
    }
  }

  /** The state of a resume satisfies everything but, perhaps, harmlessness. */
  lemma {:induction false} ResumedTracks(log: Log, hash: Hasher, s: State, a: Action)
    requires Inv(log, hash, s) && a.Assign?
    ensures MemTracks(log, hash, Assigned(hash, s, a))
  {
  }

  /** Memory below a covered window with an event breaks a promise: it stores the
      window a second time, or adds a row to a window already closed. */
  lemma {:induction false} ReopeningBreaks(log: Log, hash: Hasher, s: State, i: int) returns (acts: seq<Action>)
    requires s.mem.Some? && s.batch.None? && MemTracks(log, hash, s)
    requires IsEvent(log, i) && s.mem.value.flushed < EndAt(log, i) && Covered(s.table, EndAt(log, i))
    ensures Runs(log, hash, s, acts) && !KeepsPromises(log, hash, s, acts)
  {
    hide WindowStart, MemTracks, Runs, Exec, WriteCount, TableSound;
    acts := ReadAndFlush(log, hash, s, i, EndAt(log, i));
  }

  /** The previous owner's commit lands after the resume. */
  lemma {:induction false} LandsFirst(log: Log, hash: Hasher, s: State, a: Action) returns (first: seq<Action>)
    requires Inv(log, hash, s) && s.mem.None? && a.Assign?
    ensures var t := Assigned(hash, s, a);
            && Runs(log, hash, t, first)
            && var u := Exec(log, hash, t, first);
            && u.mem == t.mem && u.pos == t.pos && u.batch.None?
            && forall i :: IsEvent(log, i) && Reached(s, EndAt(log, i)) ==> Covered(u.table, EndAt(log, i))
  {
    var t := Assigned(hash, s, a);
    if s.batch.Some? {
      first := [Commit];
      assert Runs(log, hash, Committed(log, t), []);
      CommitCoversReached(log, hash, s);
    } else {
      first := [];
    }
  }

  lemma {:induction false} CommitCoversReached(log: Log, hash: Hasher, s: State)
    requires Inv(log, hash, s) && s.batch.Some?
    ensures forall t :: Reached(s, t) ==> t <= s.batch.value.flushed
  {
    hide StoredHolds, WindowHolds, WindowStart;
    var w := Pick(s.batch.value.closed.Keys);
    assert TakenSound(log, s.table, s.batch.value, w);
  }

  ghost predicate AllRunsKeepPromises(log: Log, hash: Hasher, s: State) {
    forall first, rest :: Runs(log, hash, s, first) && Runs(log, hash, Exec(log, hash, s, first), rest) ==>
      KeepsPromises(log, hash, Exec(log, hash, s, first), rest)
  }

  /** A resume keeps every promise, from every state any continuation reaches and
      over everything that follows (later resumes being harmless in their turn),
      if and only if it is harmless: no event's window ends past the watermark
      resumed from and at or below the stored watermark or the one of a commit
      still in flight. */
  lemma {:induction false} AssignHarmlessIff(log: Log, hash: Hasher, s: State, a: Action)
    requires Inv(log, hash, s) && s.mem.None? && a.Assign?
    ensures AllRunsKeepPromises(log, hash, Assigned(hash, s, a)) <==> Harmless(log, s, a)
  {
    hide Inv, Runs, Exec, KeepsPromises, Reached, WindowStart;
    var t := Assigned(hash, s, a);
    if Harmless(log, s, a) {
      AssignInv(log, hash, s, a);
      forall first, rest | Runs(log, hash, t, first) && Runs(log, hash, Exec(log, hash, t, first), rest)
        ensures KeepsPromises(log, hash, Exec(log, hash, t, first), rest)
      {
        RunInv(log, hash, t, first);
        InvKeepsPromises(log, hash, Exec(log, hash, t, first), rest);
      }
    } else {
      var i :| IsEvent(log, i) && Reached(s, EndAt(log, i)) && EndAt(log, i) > t.mem.value.flushed;
      ResumedTracks(log, hash, s, a);
      var first := LandsFirst(log, hash, s, a);
      var rest := ReopeningBreaks(log, hash, Exec(log, hash, t, first), i);
    }
  }

  // ---------- What can still be stored ----------

  lemma {:induction false} ReadProgressIsHarmless(log: Log, s: State, a: Action)
    requires a.Assign? && a.loaded && s.batch.None?
    ensures Harmless(log, s, a)
  {
  }

  /** From every state the protocol reaches, a window with an event that the
      stored watermark does not cover can still get its rows: after a crash the
      partition resumes below it and reads it again. */
  lemma {:induction false} CanStillStore(log: Log, hash: Hasher, s: State, i: int) returns (acts: seq<Action>)
    requires Inv(log, hash, s) && IsEvent(log, i) && !Covered(s.table, EndAt(log, i))
    ensures Runs(log, hash, s, acts)
    ensures RowKey(StartAt(log, i), GLOBAL) in Exec(log, hash, s, acts).table.rows
    ensures Covered(Exec(log, hash, s, acts).table, EndAt(log, i))
  {
    hide WindowStart, TableSound, MemSound, BatchSound, MemTracks, Runs, Exec, WriteCount, Assigned;
    var c := s.(mem := None, batch := None);
    var start := Assign(true, EndAt(log, i) + DAY - 1, 0, false);
    ReadProgressIsHarmless(log, c, start);
    ResumedBelow(log, hash, c, start, i);
    var rest := ReadAndFlush(log, hash, Assigned(hash, c, start), i, EndAt(log, i));
    Prepend(log, hash, c, start, rest);
    if s.mem.Some? || s.batch.Some? {
      Prepend(log, hash, s, Crash, [start] + rest);
      acts := [Crash] + ([start] + rest);
    } else {
      assert s == c;
      acts := [start] + rest;
    }
  }

  lemma {:induction false} ResumedBelow(log: Log, hash: Hasher, s: State, a: Action, i: int)
    requires Inv(log, hash, s) && s.batch.None? && IsEvent(log, i) && !Covered(s.table, EndAt(log, i))
    requires a == Assign(true, EndAt(log, i) + DAY - 1, 0, false)
    ensures var t := Assigned(hash, s, a);
            t.mem.Some? && t.batch.None? && MemTracks(log, hash, t) && t.mem.value.flushed < EndAt(log, i)
  {
    hide WindowStart, StoredHolds;
    ResumedTracks(log, hash, s, a);
  }
}
