/** Where every log entry ends up: counted in its window's rows, or dropped as
    Late, and lost exactly when an incarnation commits after a failed flush. */
module Accounting {
  import opened Collections
  import opened Windows
  import opened Hierarchy
  import opened Sketches
  import opened Aggregates
  import opened Partitions
  import opened Storage
  import opened Protocol
  import opened Durability

  /** Entry `i` was read before its window, which is stored, was taken. */
  predicate CountedFor(log: Log, s: State, i: int)
    requires IsEvent(log, i)
  {
    StartAt(log, i) in s.trace.taken && i < s.trace.taken[StartAt(log, i)]
  }

  /** Every entry the stored watermark covers is counted or was left out Late. */
  ghost predicate NoLoss(log: Log, s: State) {
    forall i :: IsEvent(log, i) && Covered(s.table, EndAt(log, i)) ==> CountedFor(log, s, i) || i in s.trace.dropped
  }

  // ---------- What memory still owes ----------

  predicate InBatch(log: Log, s: State, i: int)
    requires IsEvent(log, i)
  {
    s.batch.Some? && StartAt(log, i) in s.batch.value.closed && i < s.batch.value.takenAt
  }

  /** An entry read by this incarnation and not covered by the stored watermark
      is in an open window, in its own batch, dropped as Late, or in a window it
      lost to a failed flush. */
  ghost predicate Owed(log: Log, s: State)
    requires s.mem.Some?
  {
    forall i :: 0 <= i < s.mem.value.nextOffset && IsEvent(log, i) && !Covered(s.table, EndAt(log, i)) ==>
      || i in s.trace.late
      || StartAt(log, i) in s.mem.value.open
      || (InBatch(log, s, i) && !s.batch.value.outlived)
      || StartAt(log, i) in s.trace.failed
  }

  /** The same of the entries read before the take that the batch would cover. */
  ghost predicate BatchOwed(log: Log, s: State)
    requires s.batch.Some?
  {
    forall i :: 0 <= i < s.batch.value.takenAt && IsEvent(log, i)
                && EndAt(log, i) <= s.batch.value.flushed && !Covered(s.table, EndAt(log, i)) ==>
      i in s.batch.value.late || InBatch(log, s, i) || StartAt(log, i) in s.batch.value.failed
  }

  ghost predicate LateSound(log: Log, s: State) {
    && (forall i :: i in s.trace.late ==>
          && IsEvent(log, i) && i in s.trace.rejected
          && (s.mem.Some? ==> i < s.mem.value.nextOffset && EndAt(log, i) <= s.mem.value.flushed))
    && (s.batch.Some? ==> forall i :: i in s.batch.value.late ==>
          IsEvent(log, i) && i in s.trace.rejected && !InBatch(log, s, i))
    && (s.batch.Some? && !s.batch.value.outlived ==>
          && (forall i :: i in s.trace.late && i < s.batch.value.takenAt ==> i in s.batch.value.late)
          && (s.mem.Some? ==> s.batch.value.takenAt <= s.mem.value.nextOffset))
  }

  /** Entry `i` of a failed window: accepted once, then gone from memory. */
  ghost predicate Orphan(log: Log, s: State, w: Time, i: int) {
    && InWindow(log, i, w) && i !in s.trace.late && !Covered(s.table, WindowEnd(w))
    && (s.mem.Some? ==> i < s.mem.value.nextOffset && WindowEnd(w) <= s.mem.value.flushed)
  }

  /** The same, seen from a batch its incarnation took afterwards. */
  ghost predicate BatchOrphan(log: Log, s: State, w: Time, i: int)
    requires s.batch.Some?
  {
    && InWindow(log, i, w) && i !in s.batch.value.late && !Covered(s.table, WindowEnd(w))
    && i < s.batch.value.takenAt && !InBatch(log, s, i) && WindowEnd(w) <= s.batch.value.flushed
  }

  ghost predicate FailedSound(log: Log, s: State) {
    && (forall w :: w in s.trace.failed ==> exists i :: Orphan(log, s, w, i))
    && (s.batch.Some? ==>
          && s.trace.failed <= s.batch.value.failed
          && forall w :: w in s.batch.value.failed ==> exists i :: BatchOrphan(log, s, w, i))
  }

  /** Dropped entries are covered and not counted: the two never overlap. */
  ghost predicate DroppedSound(log: Log, s: State) {
    forall i :: i in s.trace.dropped ==>
      IsEvent(log, i) && Covered(s.table, EndAt(log, i)) && !CountedFor(log, s, i)
  }

  /** What memory read after the take of a batch that closes its window, it judged Late. */
  ghost predicate RejectedSince(log: Log, s: State)
    requires s.batch.Some? && s.mem.Some?
  {
    var b, p := s.batch.value, s.mem.value;
    forall i :: b.takenAt <= i < p.nextOffset && IsEvent(log, i) && EndAt(log, i) <= b.flushed ==> i in s.trace.rejected
  }

  /** Whoever has read past a dropped entry judged it Late when reading it. */
  ghost predicate RejectedSound(log: Log, s: State) {
    && (forall i :: i in s.trace.dropped ==>
          && (s.mem.Some? && i < s.mem.value.nextOffset ==> i in s.trace.rejected)
          && (s.batch.Some? && i < s.batch.value.takenAt ==> i in s.trace.rejected)
          && (s.table.progress.Some? && i < s.table.progress.value.offset ==> i in s.trace.rejected))
    && (s.batch.Some? && s.mem.Some? ==> RejectedSince(log, s))
  }

  ghost predicate Accounts(log: Log, s: State) {
    && (s.mem.Some? ==> Owed(log, s))
    && (s.batch.Some? ==> BatchOwed(log, s))
    && LateSound(log, s)
    && FailedSound(log, s)
    && DroppedSound(log, s)
    && RejectedSound(log, s)
    && NoLoss(log, s)
  }

  /** Orphans stay orphans while the stored watermark stands still, memory only
      moves on, and the batch stays. */
  lemma {:induction false} OrphansStay(log: Log, s: State, t: State)
    requires FailedSound(log, s) && t.table == s.table && t.batch == s.batch && t.trace.failed == s.trace.failed
    requires forall w, i :: Orphan(log, s, w, i) && w in s.trace.failed ==> Orphan(log, t, w, i)
    ensures FailedSound(log, t)
  {
    hide WindowStart;
    forall w | w in t.trace.failed
      ensures exists i :: Orphan(log, t, w, i)
    {
      var i :| Orphan(log, s, w, i);
    }
    if s.batch.Some? {
      forall w | w in t.batch.value.failed
        ensures exists i :: BatchOrphan(log, t, w, i)
      {
        var i :| BatchOrphan(log, s, w, i);
        assert BatchOrphan(log, t, w, i);
      }
    }
  }

  lemma {:induction false} DeliverAccounts(log: Log, hash: Hasher, s: State, wall: Time)
    requires Inv(log, hash, s) && Accounts(log, s) && s.mem.Some? && s.pos < |log|
    ensures Accounts(log, Delivered(log, s, wall))
  {
    hide WindowHolds, StoredHolds, WindowStart, AddEvent, FailedSound, Owed, RejectedSound;
    DeliverOwed(log, hash, s, wall);
    DeliverRejects(log, hash, s, wall);
    OrphansStay(log, s, Delivered(log, s, wall));
  }

  lemma {:induction false} DeliverOwed(log: Log, hash: Hasher, s: State, wall: Time)
    requires Inv(log, hash, s) && s.mem.Some? && Owed(log, s) && s.pos < |log|
    ensures Owed(log, Delivered(log, s, wall))
  {
    hide WindowHolds, StoredHolds, WindowStart, AddEvent, BatchSound, TableSound;
  }

  lemma {:induction false} DeliverRejects(log: Log, hash: Hasher, s: State, wall: Time)
    requires Inv(log, hash, s) && s.mem.Some? && DroppedSound(log, s) && RejectedSound(log, s) && s.pos < |log|
    ensures RejectedSound(log, Delivered(log, s, wall))
  {
    hide Tracks, StoredHolds, WindowStart, AddEvent, BatchSound, TableSound;
  }

  lemma {:induction false} TickAccounts(log: Log, s: State, nowWall: Time, nowUtc: Time)
    requires Accounts(log, s) && s.mem.Some?
    ensures Accounts(log, s.(mem := Some(Ticked(s.mem.value, nowWall, nowUtc))))
  {
    hide WindowStart, FailedSound;
    OrphansStay(log, s, s.(mem := Some(Ticked(s.mem.value, nowWall, nowUtc))));
  }

  lemma {:induction false} TakeAccounts(log: Log, hash: Hasher, s: State)
    requires Inv(log, hash, s) && Accounts(log, s) && s.mem.Some? && s.batch.None?
    ensures Accounts(log, Taken(s))
  {
    hide WindowHolds, StoredHolds, WindowStart, CommittedOffset;
    var p, t := s.mem.value, Taken(s);
    forall i | 0 <= i < p.nextOffset && IsEvent(log, i) && StartAt(log, i) in p.open
      ensures StartAt(log, i) in t.mem.value.open || InBatch(log, t, i)
    {
      assert WindowEnd(StartAt(log, i)) <= Watermark(p) ==> StartAt(log, i) in Closed(p).Keys;
    }
    forall i | i in t.trace.late
      ensures !InBatch(log, t, i)
    {
      assert StartAt(log, i) in p.open ==> TracksWindow(log, p, StartAt(log, i));
    }
    forall w | w in t.trace.failed
      ensures exists i :: Orphan(log, t, w, i)
      ensures t.batch.Some? ==> exists i :: BatchOrphan(log, t, w, i)
    {
      var i :| Orphan(log, s, w, i);
      assert w in p.open ==> TracksWindow(log, p, w);
      assert Orphan(log, t, w, i);
      assert t.batch.Some? ==> BatchOrphan(log, t, w, i);
    }
  }

  /** The windows of a failed flush become orphans. */
  lemma {:induction false} FailOrphans(log: Log, hash: Hasher, s: State, w: Time) returns (i: int)
    requires Inv(log, hash, s) && Accounts(log, s) && s.batch.Some? && w in FlushFailed(s).trace.failed
    ensures Orphan(log, FlushFailed(s), w, i)
  {
    hide StoredHolds, WindowStart, CellsHold, Tracks, NoLoss, Owed, BatchOwed;
    if w in s.trace.failed {
      i :| Orphan(log, s, w, i);
    } else {
      assert TakenSound(log, s.table, s.batch.value, w);
      i := s.batch.value.closed[w].minOffset;
      assert InBatch(log, s, i);
    }
  }

  lemma {:induction false} FailAccounts(log: Log, hash: Hasher, s: State)
    requires Inv(log, hash, s) && Accounts(log, s) && s.batch.Some?
    ensures Accounts(log, FlushFailed(s))
  {
    hide Inv, WindowStart;
    var t := FlushFailed(s);
    forall w | w in t.trace.failed
      ensures exists i :: Orphan(log, t, w, i)
    {
      var i := FailOrphans(log, hash, s, w);
    }
  }

  /** A resume starts a new account; a batch still in flight keeps its own. */
  lemma {:induction false} AssignAccounts(log: Log, hash: Hasher, s: State, a: Action)
    requires Inv(log, hash, s) && Accounts(log, s) && s.mem.None? && a.Assign? && Harmless(log, s, a)
    ensures Accounts(log, Assigned(hash, s, a))
  {
    hide WindowHolds, StoredHolds, WindowStart;
    var t := Assigned(hash, s, a);
    if s.batch.Some? {
      forall w | w in t.batch.value.failed
        ensures exists i :: BatchOrphan(log, t, w, i)
      {
        var i :| BatchOrphan(log, s, w, i);
        assert BatchOrphan(log, t, w, i);
      }
    }
  }

  lemma {:induction false} CommitNoLoss(log: Log, hash: Hasher, s: State)
    requires Inv(log, hash, s) && Accounts(log, s) && s.batch.Some? && s.batch.value.failed == {}
    ensures NoLoss(log, Committed(log, s))
  {
  }

  lemma {:induction false} CommitAccounts(log: Log, hash: Hasher, s: State)
    requires Inv(log, hash, s) && Accounts(log, s) && s.batch.Some? && s.batch.value.failed == {}
    ensures Accounts(log, Committed(log, s))
  {
    hide WindowHolds, StoredHolds, WindowStart, NewRows, NoLoss, Tracks;
    var b, t := s.batch.value, Committed(log, s);
    CommitNoLoss(log, hash, s);
    CommitExtends(log, hash, s);
    forall i | i in t.trace.dropped
      ensures IsEvent(log, i) && Covered(t.table, EndAt(log, i)) && !CountedFor(log, t, i)
    {
      var w := StartAt(log, i);
      assert w in b.closed ==> TakenSound(log, s.table, b, w);
      if i in b.late {
        assert !InBatch(log, s, i);
      }
    }
  }

  lemma {:induction false} StepAccounts(log: Log, hash: Hasher, s: State, a: Action)
    requires Inv(log, hash, s) && Accounts(log, s) && Enabled(log, s, a)
    requires (a.Commit? ==> s.batch.value.failed == {}) && (a.Assign? ==> Harmless(log, s, a))
    ensures Accounts(log, Apply(log, hash, s, a))
  {
    hide Inv, Owed, LateSound, FailedSound, DroppedSound, RejectedSound, NoLoss;
    hide Delivered, Taken, Committed, Assigned, FlushFailed;
    match a
    case Deliver(wall) => DeliverAccounts(log, hash, s, wall);
    case Tick(nowWall, nowUtc) => TickAccounts(log, s, nowWall, nowUtc);
    case Take => TakeAccounts(log, hash, s);
    case Commit => CommitAccounts(log, hash, s);
    case FlushFails => FailAccounts(log, hash, s);
    case Revoke => RevokeAccounts(log, s);
    case Crash => RevokeAccounts(log, s);
    case Assign(_, _, _, _) => AssignAccounts(log, hash, s, a);
  }

  lemma {:induction false} RevokeAccounts(log: Log, s: State)
    requires Accounts(log, s)
    ensures Accounts(log, s.(mem := None)) && Accounts(log, s.(mem := None, batch := None))
  {
    hide WindowStart;
    var t, u := s.(mem := None), s.(mem := None, batch := None);
    OrphansStay(log, s, t);
    forall w | w in s.trace.failed
      ensures exists i :: Orphan(log, u, w, i)
    {
      var i :| Orphan(log, s, w, i);
      assert Orphan(log, u, w, i);
    }
  }

  // ---------- Loss, and when it happens ----------

  /** A covered entry that is neither counted nor was ever dropped as Late. */
  ghost predicate LostAt(log: Log, s: State, i: int) {
    IsEvent(log, i) && Covered(s.table, EndAt(log, i)) && !CountedFor(log, s, i) && i !in s.trace.dropped
  }

  /** Committing after a failed flush loses an accepted event. */
  lemma {:induction false} CommitAfterFailureLoses(log: Log, hash: Hasher, s: State) returns (i: int)
    requires Inv(log, hash, s) && Accounts(log, s) && s.batch.Some? && s.batch.value.failed != {}
    ensures LostAt(log, Committed(log, s), i)
  {
    hide WindowHolds, StoredHolds, WindowStart, NewRows, Tracks;
    var w := Pick(s.batch.value.failed);
    i :| BatchOrphan(log, s, w, i);
    assert i !in s.trace.dropped;
  }

  /** A lost event stays lost, whatever happens next. */
  lemma {:induction false} StepKeepsLost(log: Log, hash: Hasher, s: State, a: Action, i: int)
    requires Inv(log, hash, s) && LostAt(log, s, i) && Enabled(log, s, a)
    ensures LostAt(log, Apply(log, hash, s, a), i)
  {
    hide WindowHolds, StoredHolds, WindowStart, NewRows, Tracks;
    StepExtends(log, hash, s, a);
    if a.Commit? {
      var b, w := s.batch.value, StartAt(log, i);
      assert w in b.closed ==> TakenSound(log, s.table, b, w);
    }
  }

  lemma {:induction false} RunKeepsLost(log: Log, hash: Hasher, s: State, acts: seq<Action>, i: int)
    requires Inv(log, hash, s) && LostAt(log, s, i) && Runs(log, hash, s, acts)
    ensures LostAt(log, Exec(log, hash, s, acts), i)
    decreases |acts|
  {
    hide Inv, LostAt, Enabled, Apply;
    if |acts| > 0 {
      StepInv(log, hash, s, acts[0]);
      StepKeepsLost(log, hash, s, acts[0], i);
      RunKeepsLost(log, hash, Apply(log, hash, s, acts[0]), acts[1..], i);
    }
  }

  /** Somewhere in the run an incarnation commits after one of its own flushes
      failed. The aggregator could check this before each commit. */
  ghost predicate CommitsAfterFailure(log: Log, hash: Hasher, s: State, acts: seq<Action>)
    requires Runs(log, hash, s, acts)
    decreases |acts|
  {
    |acts| > 0 &&
    ((acts[0].Commit? && s.batch.value.failed != {}) ||
     CommitsAfterFailure(log, hash, Apply(log, hash, s, acts[0]), acts[1..]))
  }

  lemma {:induction false} RunAccounts(log: Log, hash: Hasher, s: State, acts: seq<Action>)
    requires Inv(log, hash, s) && Accounts(log, s) && Runs(log, hash, s, acts)
    requires !CommitsAfterFailure(log, hash, s, acts)
    ensures Accounts(log, Exec(log, hash, s, acts))
    decreases |acts|
  {
    hide Inv, Accounts, Enabled, Apply;
    if |acts| > 0 {
      StepInv(log, hash, s, acts[0]);
      StepAccounts(log, hash, s, acts[0]);
      RunAccounts(log, hash, Apply(log, hash, s, acts[0]), acts[1..]);
    }
  }

  lemma {:induction false} RunLoses(log: Log, hash: Hasher, s: State, acts: seq<Action>) returns (i: int)
    requires Inv(log, hash, s) && Accounts(log, s) && Runs(log, hash, s, acts)
    requires CommitsAfterFailure(log, hash, s, acts)
    ensures LostAt(log, Exec(log, hash, s, acts), i)
    decreases |acts|
  {
    hide Inv, Accounts, LostAt;
    StepInv(log, hash, s, acts[0]);
    if acts[0].Commit? && s.batch.value.failed != {} {
      i := CommitAfterFailureLoses(log, hash, s);
      RunKeepsLost(log, hash, Apply(log, hash, s, acts[0]), acts[1..], i);
    } else {
      StepAccounts(log, hash, s, acts[0]);
      i := RunLoses(log, hash, Apply(log, hash, s, acts[0]), acts[1..]);
    }
  }

  lemma {:induction false} InitAccounts(log: Log)
    ensures Accounts(log, INIT)
  {
  }

  /** No loss, exactly: a run loses an event if and only if some incarnation
      commits after one of its flushes failed. */
  lemma {:induction false} NoLossIff(log: Log, hash: Hasher, acts: seq<Action>)
    requires Runs(log, hash, INIT, acts)
    ensures NoLoss(log, Exec(log, hash, INIT, acts)) <==> !CommitsAfterFailure(log, hash, INIT, acts)
  {
    hide Apply, Enabled, Inv, Runs, Exec, CommitsAfterFailure;
    InitInv(log, hash);
    InitAccounts(log);
    if CommitsAfterFailure(log, hash, INIT, acts) {
      var i := RunLoses(log, hash, INIT, acts);
    } else {
      RunAccounts(log, hash, INIT, acts);
    }
  }

  /** Somewhere in the run, `process_event` is given entry `i` and returns Late. */
  ghost predicate JudgedLate(log: Log, hash: Hasher, s: State, acts: seq<Action>, i: int)
    requires Runs(log, hash, s, acts)
    decreases |acts|
  {
    |acts| > 0 &&
    ((acts[0].Deliver? && s.pos == i && log[i].Some? && OutcomeOf(s.mem.value, log[i].value).Late?) ||
     JudgedLate(log, hash, Apply(log, hash, s, acts[0]), acts[1..], i))
  }

  lemma {:induction false} RejectedIsJudged(log: Log, hash: Hasher, s: State, acts: seq<Action>, i: int)
    requires Runs(log, hash, s, acts)
    ensures i in Exec(log, hash, s, acts).trace.rejected <==> i in s.trace.rejected || JudgedLate(log, hash, s, acts, i)
    decreases |acts|
  {
    hide WindowStart, AfterTake, Processed, Flushed, LeftOut;
    if |acts| > 0 {
      RejectedIsJudged(log, hash, Apply(log, hash, s, acts[0]), acts[1..], i);
    }
  }

  /** What a commit left out is Late for good: whoever reads it, in this
      incarnation or a later one, gets Late. */
  lemma {:induction false} DroppedIsLate(log: Log, hash: Hasher, acts: seq<Action>, i: int)
    requires Runs(log, hash, INIT, acts) && !CommitsAfterFailure(log, hash, INIT, acts)
    requires i in Exec(log, hash, INIT, acts).trace.dropped
    ensures IsEvent(log, i)
    ensures var s := Exec(log, hash, INIT, acts);
            s.mem.Some? ==> OutcomeOf(s.mem.value, log[i].value).Late?
  {
    hide Apply, Enabled, Runs, CommitsAfterFailure, Exec, TableSound, BatchSound, WindowStart;
    InitInv(log, hash);
    InitAccounts(log);
    RunInv(log, hash, INIT, acts);
    RunAccounts(log, hash, INIT, acts);
  }

  /** Checkpoint safety: every event below the stored offset has its window end
      at or below the stored watermark, and is either counted by id in its
      window's rows, in every one of its cells, or was dropped, never both; and
      a dropped one was indeed read and judged Late. */
  lemma {:induction false} CheckpointSafe(log: Log, hash: Hasher, acts: seq<Action>, i: nat)
    requires Runs(log, hash, INIT, acts) && !CommitsAfterFailure(log, hash, INIT, acts)
    requires var table := Exec(log, hash, INIT, acts).table; table.progress.Some? && i < table.progress.value.offset
    requires IsEvent(log, i)
    ensures var s := Exec(log, hash, INIT, acts);
            && EndAt(log, i) <= s.table.progress.value.flushed
            && ((i in s.trace.dropped) != CountedFor(log, s, i))
            && (CountedFor(log, s, i) ==> CountedById(log, s, i))
            && (i in s.trace.dropped ==> JudgedLate(log, hash, INIT, acts, i))
  {
    hide Apply, Enabled, Runs, CommitsAfterFailure, Exec, StoredHolds, MemSound, BatchSound, JudgedLate;
    var s := Exec(log, hash, INIT, acts);
    RejectedIsJudged(log, hash, INIT, acts, i);
    InitInv(log, hash);
    InitAccounts(log);
    RunInv(log, hash, INIT, acts);
    RunAccounts(log, hash, INIT, acts);
    if CountedFor(log, s, i) {
      CountedIsStored(log, hash, s, i);
    }
  }

  /** Entry `i`'s id is counted, once, at some entry `j`: each of the four
      cells of that event has its row, and the row's count includes `j`. */
  ghost predicate CountedById(log: Log, s: State, i: int)
    requires IsEvent(log, i)
  {
    StartAt(log, i) in s.trace.taken && exists j :: CountedAs(log, s, i, j)
  }

  ghost predicate CountedAs(log: Log, s: State, i: int, j: int)
    requires IsEvent(log, i) && StartAt(log, i) in s.trace.taken
  {
    var w, n := StartAt(log, i), s.trace.taken[StartAt(log, i)];
    && j in Counted(log, n, w) && log[j].value.id == log[i].value.id
    && forall c :: Contributes(log[j].value, c) ==>
         && j in CountedIn(log, n, w, c)
         && RowKey(w, c) in s.table.rows
         && s.table.rows[RowKey(w, c)].events == |CountedIn(log, n, w, c)|
  }

  lemma {:induction false} CountedIsStored(log: Log, hash: Hasher, s: State, i: int)
    requires Inv(log, hash, s) && IsEvent(log, i) && CountedFor(log, s, i)
    ensures CountedById(log, s, i)
  {
    hide WindowStart, MemSound, BatchSound;
    var w, n := StartAt(log, i), s.trace.taken[StartAt(log, i)];
    assert StoredHolds(log, hash, n, w, s.table.rows);
    var j := FirstOccurrence(log, i, w);
    forall c | Contributes(log[j].value, c)
      ensures RowKey(w, c) in s.table.rows && RowHolds(log, hash, n, w, c, s.table.rows[RowKey(w, c)])
    {
      assert j in CountedIn(log, n, w, c);
    }
    assert CountedAs(log, s, i, j);
  }
}
