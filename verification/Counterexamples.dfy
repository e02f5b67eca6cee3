/** Concrete runs that show the conditions of the theorems are needed: a commit
    after a failed flush loses an event; resuming after an unreadable progress
    row, or under a commit still in flight, moves the stored progress back. */
module Counterexamples {
  import opened Collections
  import opened Windows
  import opened Hierarchy
  import opened Sketches
  import opened Aggregates
  import opened Storage
  import opened Protocol
  import opened Accounting
  import opened Partitions
  import opened Watermarks

  function EventAt(id: nat, second: int): Event {
    Event(id, "user", second * SECOND, "wikipedia", "enwiki", 0, KindEdit, false)
  }

  const LOG: Log := [Some(EventAt(0, 0)), Some(EventAt(1, 100)), Some(EventAt(2, 200))]

  const START: Action := Assign(true, 0, 0, false)

  lemma {:induction false} Starts()
    ensures WindowStart(0) == 0
    ensures WindowStart(100 * SECOND) == 60 * SECOND
    ensures WindowStart(200 * SECOND) == 180 * SECOND
  {
  }

  /** Memory with these open windows and numbers, and no batch in flight. */
  ghost predicate Idle(s: State, open: set<Time>, maxTs: Time, flushed: Time, pos: nat) {
    && s.mem.Some? && s.batch.None? && s.pos == pos
    && s.mem.value.open.Keys == open && s.mem.value.maxTs == maxTs && s.mem.value.flushed == flushed
  }

  lemma {:induction false} AssignedState(hash: Hasher, s: State, loaded: bool)
    requires s.mem.None? && s.batch.None? && (loaded ==> s.table.progress.None?)
    ensures Idle(Assigned(hash, s, Assign(loaded, 0, 0, false)), {}, -DAY, -DAY, 0)
    ensures Assigned(hash, s, Assign(loaded, 0, 0, false)).table == s.table
    ensures Assigned(hash, s, Assign(loaded, 0, 0, false)).trace.failed == {}
  {
  }

  lemma {:induction false} DeliveredState(s: State, open: set<Time>, maxTs: Time, flushed: Time, pos: nat,
                                          id: nat, second: int)
    requires Idle(s, open, maxTs, flushed, pos) && pos < |LOG| && LOG[pos] == Some(EventAt(id, second))
    requires WindowStart(second * SECOND) !in open && WindowEnd(WindowStart(second * SECOND)) > flushed
    requires second * SECOND >= maxTs
    ensures Idle(Delivered(LOG, s, 0), open + {WindowStart(second * SECOND)}, second * SECOND, flushed, pos + 1)
    ensures Delivered(LOG, s, 0).table == s.table && Delivered(LOG, s, 0).trace.failed == s.trace.failed
  {
  }

  lemma {:induction false} TakenState(s: State, open: set<Time>, maxTs: Time, flushed: Time, pos: nat,
                                      closed: set<Time>)
    requires Idle(s, open, maxTs, flushed, pos) && closed <= open && closed != {} && maxTs - ALLOWED_LATENESS > flushed
    requires forall v :: v in open ==> (WindowEnd(v) <= maxTs - ALLOWED_LATENESS <==> v in closed)
    ensures var t := Taken(s);
            && t.batch.Some? && t.batch.value.closed.Keys == closed && t.batch.value.flushed == maxTs - ALLOWED_LATENESS
            && t.batch.value.failed == s.trace.failed && !t.batch.value.outlived
            && Idle(t.(batch := None), open - closed, maxTs, maxTs - ALLOWED_LATENESS, pos)
            && t.table == s.table && t.trace == s.trace
  {
  }

  /** One more step at the end of a run. */
  lemma {:induction false} Then(log: Log, hash: Hasher, s: State, acts: seq<Action>, a: Action)
    requires Runs(log, hash, s, acts) && Enabled(log, Exec(log, hash, s, acts), a)
    requires a.Assign? ==> Harmless(log, Exec(log, hash, s, acts), a)
    ensures Runs(log, hash, s, acts + [a])
    ensures Exec(log, hash, s, acts + [a]) == Apply(log, hash, Exec(log, hash, s, acts), a)
    ensures a.Commit? && Exec(log, hash, s, acts).batch.value.failed != {} ==>
              CommitsAfterFailure(log, hash, s, acts + [a])
    decreases |acts|
  {
    hide Enabled, Apply, Harmless;
    if |acts| == 0 {
      assert acts + [a] == [a] + [];
      assert Runs(log, hash, Apply(log, hash, s, a), []);
    } else {
      Then(log, hash, Apply(log, hash, s, acts[0]), acts[1..], a);
      assert (acts + [a])[1..] == acts[1..] + [a];
    }
  }

  /** The partition is assigned and its first two events are read. */
  lemma {:induction false} ReadTwo(hash: Hasher) returns (acts: seq<Action>)
    ensures Runs(LOG, hash, INIT, acts)
    ensures var s := Exec(LOG, hash, INIT, acts);
            && Idle(s, {0, 60 * SECOND}, 100 * SECOND, -DAY, 2)
            && s.table == INIT.table && s.trace.failed == {}
  {
    hide Delivered, Assigned, WindowStart;
    Starts();
    acts := [];
    Then(LOG, hash, INIT, acts, START);
    AssignedState(hash, INIT, true);
    acts := acts + [START];
    DeliveredState(Exec(LOG, hash, INIT, acts), {}, -DAY, -DAY, 0, 0, 0);
    Then(LOG, hash, INIT, acts, Deliver(0));
    acts := acts + [Deliver(0)];
    DeliveredState(Exec(LOG, hash, INIT, acts), {0}, 0, -DAY, 1, 1, 100);
    Then(LOG, hash, INIT, acts, Deliver(0));
    acts := acts + [Deliver(0)];
  }

  /** The rest is read, and the two closed windows are taken. */
  lemma {:induction false} ReadAndTaken(hash: Hasher) returns (acts: seq<Action>)
    ensures Runs(LOG, hash, INIT, acts)
    ensures var s := Exec(LOG, hash, INIT, acts);
            && s.mem.Some? && s.table == INIT.table && s.batch.Some? && s.batch.value.flushed == 170 * SECOND
  {
    hide Delivered, Taken, WindowStart, Runs, Exec;
    Starts();
    acts := ReadTwo(hash);
    DeliveredState(Exec(LOG, hash, INIT, acts), {0, 60 * SECOND}, 100 * SECOND, -DAY, 2, 2, 200);
    Then(LOG, hash, INIT, acts, Deliver(0));
    acts := acts + [Deliver(0)];
    TakenState(Exec(LOG, hash, INIT, acts), {0, 60 * SECOND, 180 * SECOND}, 200 * SECOND, -DAY, 3, {0, 60 * SECOND});
    Then(LOG, hash, INIT, acts, Take);
    acts := acts + [Take];
  }

  /** A flush fails, a later one commits: the first window's event is lost. */
  lemma {:induction false} CommitAfterFailureHappens(hash: Hasher) returns (acts: seq<Action>, i: int)
    ensures Runs(LOG, hash, INIT, acts) && CommitsAfterFailure(LOG, hash, INIT, acts)
    ensures LostAt(LOG, Exec(LOG, hash, INIT, acts), i)
  {
    hide Delivered, Taken, Committed, WindowStart, LostAt, Inv, Accounts, Runs, Exec, CommitsAfterFailure;
    Starts();
    acts := ReadTwo(hash);
    TakenState(Exec(LOG, hash, INIT, acts), {0, 60 * SECOND}, 100 * SECOND, -DAY, 2, {0});
    Then(LOG, hash, INIT, acts, Take);
    acts := acts + [Take];
    Then(LOG, hash, INIT, acts, FlushFails);
    acts := acts + [FlushFails];
    assert 0 in Exec(LOG, hash, INIT, acts).trace.failed;
    DeliveredState(Exec(LOG, hash, INIT, acts), {60 * SECOND}, 100 * SECOND, 70 * SECOND, 2, 2, 200);
    Then(LOG, hash, INIT, acts, Deliver(0));
    acts := acts + [Deliver(0)];
    TakenState(Exec(LOG, hash, INIT, acts), {60 * SECOND, 180 * SECOND}, 200 * SECOND, 70 * SECOND, 3, {60 * SECOND});
    Then(LOG, hash, INIT, acts, Take);
    acts := acts + [Take];
    Then(LOG, hash, INIT, acts, Commit);
    acts := acts + [Commit];
    InitInv(LOG, hash);
    InitAccounts(LOG);
    i := RunLoses(LOG, hash, INIT, acts);
  }

  /** The progress row exists but cannot be read: the partition starts over from
      a day-old watermark, and its next commit moves the stored one back. */
  lemma {:induction false} UnreadableProgressRegresses(hash: Hasher)
      returns (acts: seq<Action>, before: State, after: State)
    ensures Runs(LOG, hash, INIT, acts) && before == Exec(LOG, hash, INIT, acts)
    ensures before.table.progress.Some? && Enabled(LOG, before, Assign(false, 0, 0, false))
    ensures !Harmless(LOG, before, Assign(false, 0, 0, false))
    ensures var s1 := Apply(LOG, hash, before, Assign(false, 0, 0, false));
            && Enabled(LOG, s1, Deliver(0))
            && var s2 := Apply(LOG, hash, s1, Deliver(0));
            && Enabled(LOG, s2, Deliver(0))
            && var s3 := Apply(LOG, hash, s2, Deliver(0));
            && Enabled(LOG, s3, Take)
            && var s4 := Apply(LOG, hash, s3, Take);
            && Enabled(LOG, s4, Commit)
            && after == Apply(LOG, hash, s4, Commit)
    ensures after.table.progress.Some? && after.table.progress.value.flushed < before.table.progress.value.flushed
  {
    hide Delivered, Taken, Assigned, WindowStart, NewRows, LeftOut, Runs, Exec;
    Starts();
    acts := ReadAndTaken(hash);
    Then(LOG, hash, INIT, acts, Commit);
    acts := acts + [Commit];
    Then(LOG, hash, INIT, acts, Revoke);
    acts := acts + [Revoke];
    before := Exec(LOG, hash, INIT, acts);
    assert EndAt(LOG, 0) == 60 * SECOND && Reached(before, EndAt(LOG, 0));
    var s1 := Apply(LOG, hash, before, Assign(false, 0, 0, false));
    AssignedState(hash, before, false);
    var s2 := Apply(LOG, hash, s1, Deliver(0));
    DeliveredState(s1, {}, -DAY, -DAY, 0, 0, 0);
    var s3 := Apply(LOG, hash, s2, Deliver(0));
    DeliveredState(s2, {0}, 0, -DAY, 1, 1, 100);
    var s4 := Apply(LOG, hash, s3, Take);
    TakenState(s3, {0, 60 * SECOND}, 100 * SECOND, -DAY, 2, {0});
    after := Apply(LOG, hash, s4, Commit);
  }

  /** A partition is revoked and assigned again while its old owner still has a
      commit in flight: the commit lands, and the new owner, which resumed from
      the older progress, moves the stored watermark back with its own. */
  lemma {:induction false} StaleCommitRegresses(hash: Hasher)
      returns (acts: seq<Action>, before: State, landed: State, after: State)
    ensures Runs(LOG, hash, INIT, acts) && before == Exec(LOG, hash, INIT, acts)
    ensures before.batch.Some? && Enabled(LOG, before, START) && !Harmless(LOG, before, START)
    ensures var s1 := Apply(LOG, hash, before, START);
            && Enabled(LOG, s1, Commit)
            && landed == Apply(LOG, hash, s1, Commit)
            && Enabled(LOG, landed, Deliver(0))
            && var s2 := Apply(LOG, hash, landed, Deliver(0));
            && Enabled(LOG, s2, Deliver(0))
            && var s3 := Apply(LOG, hash, s2, Deliver(0));
            && Enabled(LOG, s3, Take)
            && var s4 := Apply(LOG, hash, s3, Take);
            && Enabled(LOG, s4, Commit)
            && after == Apply(LOG, hash, s4, Commit)
    ensures landed.table.progress.Some? && after.table.progress.Some?
            && after.table.progress.value.flushed < landed.table.progress.value.flushed
  {
    hide Delivered, Taken, Assigned, WindowStart, NewRows, LeftOut, Runs, Exec;
    Starts();
    acts := ReadAndTaken(hash);
    Then(LOG, hash, INIT, acts, Revoke);
    acts := acts + [Revoke];
    before := Exec(LOG, hash, INIT, acts);
    assert EndAt(LOG, 0) == 60 * SECOND && Reached(before, EndAt(LOG, 0));
    var s1 := Apply(LOG, hash, before, START);
    AssignedState(hash, before.(batch := None), true);
    AssignKeepsBatch(hash, before);
    landed := Apply(LOG, hash, s1, Commit);
    var s2 := Apply(LOG, hash, landed, Deliver(0));
    DeliveredState(landed, {}, -DAY, -DAY, 0, 0, 0);
    var s3 := Apply(LOG, hash, s2, Deliver(0));
    DeliveredState(s2, {0}, 0, -DAY, 1, 1, 100);
    var s4 := Apply(LOG, hash, s3, Take);
    TakenState(s3, {0, 60 * SECOND}, 100 * SECOND, -DAY, 2, {0});
    after := Apply(LOG, hash, s4, Commit);
  }

  lemma {:induction false} AssignKeepsBatch(hash: Hasher, s: State)
    requires s.batch.Some?
    ensures Assigned(hash, s, START)
         == Assigned(hash, s.(batch := None), START).(batch := Some(s.batch.value.(outlived := true)))
  {
  }

  // ---------- Late once, accepted on replay ----------

  const BACKDATED: Log := [Some(EventAt(0, 100)), Some(EventAt(1, 5))]

  /** Memory that read the first event of this log, before and after a take. */
  ghost predicate ReadOne(s: State, flushed: Time) {
    && Idle(s, {60 * SECOND}, 100 * SECOND, flushed, 1) && s.table == INIT.table
  }

  lemma {:induction false} BackdatedSteps(hash: Hasher, s: State)
    requires s.mem.None? && s.batch.None? && s.table == INIT.table
    ensures Harmless(BACKDATED, s, START)
    ensures ReadOne(Delivered(BACKDATED, Assigned(hash, s, START), 0), -DAY)
    ensures ReadOne(Taken(Delivered(BACKDATED, Assigned(hash, s, START), 0)), 70 * SECOND)
    ensures LateFor(Taken(Delivered(BACKDATED, Assigned(hash, s, START), 0)).mem.value, EventAt(1, 5))
    ensures OutcomeOf(Delivered(BACKDATED, Assigned(hash, s, START), 0).mem.value, EventAt(1, 5)).Accepted?
  {
    Starts();
    assert WindowStart(5 * SECOND) == 0;
  }

  lemma {:induction false} NoSteps(log: Log, hash: Hasher, s: State)
    ensures Runs(log, hash, s, []) && Exec(log, hash, s, []) == s
  {
  }

  /** A take that closes nothing still advances the watermark in memory, to
      seventy seconds, so the next event is Late; nothing was stored, so after a
      crash the same event is read again and accepted. */
  lemma {:induction false} LateThenAccepted(hash: Hasher) returns (acts: seq<Action>, again: seq<Action>)
    ensures Runs(BACKDATED, hash, INIT, acts) && |acts| == 3 && acts[2] == Take
    ensures var s := Exec(BACKDATED, hash, INIT, acts);
            && s.mem.Some? && s.batch.None? && s.pos == 1 && s.table == INIT.table
            && LateFor(s.mem.value, EventAt(1, 5))
            && Runs(BACKDATED, hash, s, again) && |again| == 4 && again[1] == Crash
            && var t := Exec(BACKDATED, hash, s, again);
               t.mem.Some? && t.pos == 1 && OutcomeOf(t.mem.value, EventAt(1, 5)).Accepted?
  {
    hide Runs, Exec, Delivered, Taken, Assigned, Harmless, WindowStart, LateFor, OutcomeOf;
    var log := BACKDATED;
    NoSteps(log, hash, INIT);
    BackdatedSteps(hash, INIT);
    Then(log, hash, INIT, [], START);
    AssignedState(hash, INIT, true);
    Then(log, hash, INIT, [] + [START], Deliver(0));
    Then(log, hash, INIT, [] + [START] + [Deliver(0)], Take);
    acts := [] + [START] + [Deliver(0)] + [Take];
    var s := Exec(log, hash, INIT, acts);
    NoSteps(log, hash, s);
    Then(log, hash, s, [], Deliver(0));
    DeliverKeepsTable(log, s);
    Then(log, hash, s, [] + [Deliver(0)], Crash);
    var c := Exec(log, hash, s, [] + [Deliver(0)] + [Crash]);
    assert c.mem.None? && c.batch.None? && c.table == INIT.table;
    BackdatedSteps(hash, c);
    Then(log, hash, s, [] + [Deliver(0)] + [Crash], START);
    AssignedState(hash, c, true);
    Then(log, hash, s, [] + [Deliver(0)] + [Crash] + [START], Deliver(0));
    again := [] + [Deliver(0)] + [Crash] + [START] + [Deliver(0)];
  }

  lemma {:induction false} DeliverKeepsTable(log: Log, s: State)
    requires s.mem.Some? && s.pos < |log|
    ensures Delivered(log, s, 0).table == s.table && Delivered(log, s, 0).mem.Some?
  {
  }
}
