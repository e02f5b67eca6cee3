/** End-to-end exactness of one partition: when nothing arrives too late for
    the watermark, the stored rows are the fold of the entire log. */
module ZeroDrift {
  import opened Windows
  import opened Hierarchy
  import opened Sketches
  import opened Aggregates
  import opened Partitions
  import opened Storage
  import opened Protocol
  import opened Accounting

  /** No event's window is closed by the timestamp of an earlier event. */
  ghost predicate Orderly(log: Log) {
    forall i, j :: 0 <= i < j && IsEvent(log, i) && IsEvent(log, j) ==>
      log[i].value.ts - ALLOWED_LATENESS < EndAt(log, j)
  }

  /** The generator's discipline: an event is sent no earlier than its timestamp
      and less than the allowed lateness after it. Such a log is orderly. */
  lemma {:induction false} BoundedBackdatingIsOrderly(log: Log, sent: seq<Time>)
    requires |sent| == |log| && forall i, j :: 0 <= i < j < |sent| ==> sent[i] <= sent[j]
    requires forall i :: IsEvent(log, i) ==> sent[i] - ALLOWED_LATENESS < log[i].value.ts <= sent[i]
    ensures Orderly(log)
  {
  }

  /** Instant `t` closes no window, not stored yet, of an entry from `n` on. */
  ghost predicate Ahead(log: Log, table: Table, n: nat, t: Time) {
    forall j :: n <= j && IsEvent(log, j) ==> t < EndAt(log, j) || Covered(table, EndAt(log, j))
  }

  /** The clock is not ahead of the log: an idle tick overtakes no unread
      event, and a first watermark precedes every window. Resuming from the
      stored progress always qualifies. */
  ghost predicate PunctualStep(log: Log, s: State, a: Action)
    requires Enabled(log, s, a)
  {
    match a
    case Tick(nowWall, nowUtc) =>
      TickTakesEffect(s.mem.value, nowWall, nowUtc) ==>
        Ahead(log, s.table, s.mem.value.nextOffset, nowUtc - ALLOWED_LATENESS)
    case Assign(loaded, now, _, _) => Ahead(log, s.table, 0, ResumePoint(s.table, loaded, now).flushed)
    case _ => true
  }

  ghost predicate Punctual(log: Log, hash: Hasher, s: State, acts: seq<Action>)
    requires Runs(log, hash, s, acts)
    decreases |acts|
  {
    |acts| > 0 ==>
      PunctualStep(log, s, acts[0]) && Punctual(log, hash, Apply(log, hash, s, acts[0]), acts[1..])
  }

  /** Nothing unread is late unless it is stored already, and nothing was dropped. */
  ghost predicate OnTime(log: Log, s: State) {
    && (s.mem.Some? ==>
          && Ahead(log, s.table, s.mem.value.nextOffset, Watermark(s.mem.value))
          && Ahead(log, s.table, s.mem.value.nextOffset, s.mem.value.flushed))
    && (s.batch.Some? ==>
          Ahead(log, s.table, s.batch.value.takenAt, s.batch.value.flushed) && s.batch.value.late == {})
    && s.trace.late == {} && s.trace.dropped == {}
  }

  lemma {:induction false} DeliverOnTime(log: Log, hash: Hasher, s: State, wall: Time)
    requires Orderly(log) && Inv(log, hash, s) && OnTime(log, s) && s.mem.Some? && s.pos < |log|
    ensures OnTime(log, Delivered(log, s, wall))
  {
    hide WindowStart, Tracks, TableSound, BatchSound, AddEvent;
  }

  lemma {:induction false} CommitOnTime(log: Log, hash: Hasher, s: State)
    requires Inv(log, hash, s) && OnTime(log, s) && s.batch.Some?
    ensures OnTime(log, Committed(log, s))
  {
  }

  lemma {:induction false} StepOnTime(log: Log, hash: Hasher, s: State, a: Action)
    requires Orderly(log) && Inv(log, hash, s) && OnTime(log, s) && Enabled(log, s, a) && PunctualStep(log, s, a)
    ensures OnTime(log, Apply(log, hash, s, a))
  {
    hide WindowStart, WindowHolds, StoredHolds, Inv, Delivered, Committed, CommittedOffset;
    match a
    case Deliver(wall) => DeliverOnTime(log, hash, s, wall);
    case Commit => CommitOnTime(log, hash, s);
    case _ =>
  }

  lemma {:induction false} RunOnTime(log: Log, hash: Hasher, s: State, acts: seq<Action>)
    requires Orderly(log) && Inv(log, hash, s) && OnTime(log, s)
    requires Runs(log, hash, s, acts) && Punctual(log, hash, s, acts)
    ensures OnTime(log, Exec(log, hash, s, acts))
    decreases |acts|
  {
    hide Inv, OnTime, Enabled, Apply, PunctualStep, Orderly;
    if |acts| > 0 {
      StepInv(log, hash, s, acts[0]);
      StepOnTime(log, hash, s, acts[0]);
      RunOnTime(log, hash, Apply(log, hash, s, acts[0]), acts[1..]);
    }
  }

  /** A window with no entries past `n` counts the same over the whole log. */
  lemma {:induction false} CountedComplete(log: Log, n: nat, w: Time, c: CellKey)
    requires n <= |log| && forall i :: InWindow(log, i, w) ==> i < n
    ensures CountedIn(log, n, w, c) == CountedIn(log, |log|, w, c)
  {
  }

  lemma {:induction false} StoredComplete(log: Log, hash: Hasher, n: nat, w: Time, rows: map<RowKey, Row>)
    requires n <= |log| && StoredHolds(log, hash, n, w, rows) && forall i :: InWindow(log, i, w) ==> i < n
    ensures StoredHolds(log, hash, |log|, w, rows)
  {
    hide WindowStart, CountedIn;
    forall c
      ensures CountedIn(log, n, w, c) == CountedIn(log, |log|, w, c)
    {
      CountedComplete(log, n, w, c);
    }
  }

  /** Zero drift: in an orderly log, over any run whose clock stays behind the
      log and that does not commit after a failed flush, every window the stored
      watermark covers holds exactly the counts of the entire log. */
  lemma {:induction false} WholeLogStored(log: Log, hash: Hasher, acts: seq<Action>, w: Time)
    requires Orderly(log) && Runs(log, hash, INIT, acts) && Punctual(log, hash, INIT, acts)
    requires !CommitsAfterFailure(log, hash, INIT, acts)
    requires Covered(Exec(log, hash, INIT, acts).table, WindowEnd(w))
    ensures StoredHolds(log, hash, |log|, w, Exec(log, hash, INIT, acts).table.rows)
  {
    hide WindowStart, Apply, Enabled, Runs, Exec, CommitsAfterFailure, Punctual, StoredHolds, MemSound, BatchSound;
    var s := Exec(log, hash, INIT, acts);
    InitInv(log, hash);
    InitAccounts(log);
    RunInv(log, hash, INIT, acts);
    RunAccounts(log, hash, INIT, acts);
    RunOnTime(log, hash, INIT, acts);
    forall i | InWindow(log, i, w)
      ensures CountedFor(log, s, i)
    {
      assert Covered(s.table, EndAt(log, i));
    }
    if w in s.trace.taken {
      StoredComplete(log, hash, s.trace.taken[w], w, s.table.rows);
    } else {
      NothingStored(log, hash, w, s.table.rows);
    }
  }

  lemma {:induction false} NothingStored(log: Log, hash: Hasher, w: Time, rows: map<RowKey, Row>)
    requires forall i :: !InWindow(log, i, w)
    requires forall key :: key in rows ==> key.start != w
    ensures StoredHolds(log, hash, |log|, w, rows)
  {
  }
}
