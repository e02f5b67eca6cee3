/** The loops over the shared map of partition states: the take phase of the
    flush loop and the idle loop (crates/aggregator/src/flush.rs), and the
    rebalance callbacks (crates/aggregator/src/rebalance.rs). Each applies the
    protocol's step to exactly the partitions it is given. */
module Aggregators {
  import opened Collections
  import opened Windows
  import opened Aggregates
  import opened Partitions
  import opened Storage
  import opened Protocol

  /** What the flush loop carries from the lock to the database. */
  datatype Pending = Pending(closed: seq<(Time, Window)>, offset: nat, flushed: Time)

  /** The batch a partition's take puts in flight, or none. */
  ghost predicate PendingMatches(p: Partition, pending: Option<Pending>) {
    match pending
    case None => Closed(p).Keys == {}
    case Some(b) =>
      && Closed(p).Keys != {} && Lists(b.closed, Closed(p))
      && b.offset == CommittedOffset(AfterTake(p)) && b.flushed == AfterTake(p).flushed
  }

  /** One partition's share of the take phase. */
  method TakePartition(p: Partition) returns (next: Partition, pending: Option<Pending>)
    ensures next == AfterTake(p) && PendingMatches(p, pending)
  {
    var state := new PartitionState.From(p);
    var closed := state.TakeClosedWindows();
    next := state.Value();
    if |closed| == 0 {
      assert forall w :: w !in Closed(p);
      return next, None;
    }
    assert closed[0].0 in Closed(p).Keys;
    var offset := state.SafeOffset();
    pending := Some(Pending(closed, offset, next.flushed));
  }

  // ---------- The write phase ----------

  /** The flush loop carries the batch the state machine has in flight. */
  ghost predicate Carries(pending: Pending, s: State) {
    && s.batch.Some? && Lists(pending.closed, s.batch.value.closed)
    && pending.offset == s.batch.value.offset && pending.flushed == s.batch.value.flushed
  }

  /** The state machine after its batch was written, or failed to be. */
  ghost function Written(log: Log, s: State, fails: bool): State
    requires s.batch.Some?
  {
    if fails then FlushFailed(s) else Committed(log, s)
  }

  lemma {:induction false} WrittenIs(log: Log, s: State, fails: bool)
    requires s.batch.Some?
    ensures Written(log, s, fails).table ==
            var b := s.batch.value; if fails then s.table else Flushed(s.table, b.closed, b.offset, b.flushed)
  {
  }

  /** One transaction per batch, each on its own: what fails is dropped, and the
      loop goes on. Every partition's tables end up as its `Commit` or its
      `FlushFails` leaves them, and no other partition's tables change. */
  method WriteAll(db: Database, batches: map<int, Pending>, failing: set<int>, ghost logs: map<int, Log>,
                  ghost before: map<int, State>)
    requires batches.Keys <= logs.Keys && batches.Keys <= before.Keys
    requires forall p :: p in batches ==> before[p].batch.Some? && Carries(batches[p], before[p])
    requires forall p :: p in batches ==> before[p].table == db.TableOf(p)
    modifies db
    ensures forall p :: p in batches ==> db.TableOf(p) == Written(logs[p], before[p], p in failing).table
    ensures forall p :: p !in batches ==> db.TableOf(p) == old(db.TableOf(p))
    ensures db.tables.Keys == old(db.tables.Keys) + (batches.Keys - failing)
  {
    hide Flushed, Lists, Written;
    var rest := batches.Keys;
    while rest != {}
      invariant rest <= batches.Keys
      invariant forall p :: p in batches && p !in rest ==>
                  db.TableOf(p) == Written(logs[p], before[p], p in failing).table
      invariant forall p :: p !in batches || p in rest ==> db.TableOf(p) == old(db.TableOf(p))
      invariant db.tables.Keys == old(db.tables.Keys) + (batches.Keys - rest - failing)
      decreases rest
    {
      var p := TakeOne(rest);
      WrittenIs(logs[p], before[p], p in failing);
      if p !in failing {
        var b := batches[p];
        db.FlushWindows(p, b.closed, b.offset, b.flushed, before[p].batch.value.closed);
      }
      rest := rest - {p};
    }
  }

  class Aggregator {
    var states: map<int, Partition>

    constructor ()
      ensures states == map[]
    {
      states := map[];
    }

    /** Under the lock: every partition takes its closed windows; those with
        none keep their advanced watermark but put nothing in flight. */
    method TakeAll() returns (batches: map<int, Pending>)
      modifies this
      ensures states.Keys == old(states).Keys
      ensures forall p :: p in states ==> states[p] == AfterTake(old(states)[p])
      ensures batches.Keys <= old(states).Keys
      ensures forall p :: p in old(states) ==>
                PendingMatches(old(states)[p], if p in batches then Some(batches[p]) else None)
    {
      hide PendingMatches, AfterTake;
      batches := map[];
      var rest := states.Keys;
      while rest != {}
        invariant rest <= old(states).Keys && states.Keys == old(states).Keys && batches.Keys <= old(states).Keys - rest
        invariant forall p :: p in states ==>
                    states[p] == if p in rest then old(states)[p] else AfterTake(old(states)[p])
        invariant forall p :: p in old(states) && p !in rest ==>
                    PendingMatches(old(states)[p], if p in batches then Some(batches[p]) else None)
        decreases rest
      {
        var p := TakeOne(rest);
        var next, pending := TakePartition(states[p]);
        states := states[p := next];
        if pending.Some? {
          batches := batches[p := pending.value];
        }
        rest := rest - {p};
      }
    }

    /** One round of the flush loop with nothing in between: every partition
        makes the state machine's `Take`, and those with a batch its `Commit` or
        its `FlushFails`. */
    method FlushRound(db: Database, failing: set<int>, ghost logs: map<int, Log>, ghost before: map<int, State>)
      requires states.Keys <= logs.Keys && states.Keys <= before.Keys
      requires forall p :: p in states ==>
                 before[p].mem == Some(states[p]) && before[p].batch.None? && before[p].table == db.TableOf(p)
      modifies this, db
      ensures states.Keys == old(states).Keys
      ensures forall p :: p in states ==>
                var taken := Taken(before[p]);
                var after := if taken.batch.Some? then Written(logs[p], taken, p in failing) else taken;
                after.mem == Some(states[p]) && after.table == db.TableOf(p)
      ensures forall p :: p !in states ==> db.TableOf(p) == old(db.TableOf(p))
    {
      hide AfterTake, CommittedOffset, Flushed, LeftOut;
      var batches := TakeAll();
      ghost var taken := map p | p in states :: Taken(before[p]);
      forall p | p in states
        ensures p in batches ==> Carries(batches[p], taken[p])
        ensures p !in batches ==> taken[p].batch.None?
        ensures taken[p].table == db.TableOf(p) && taken[p].mem == Some(states[p])
      {
        TakePhaseIsTake(before[p], if p in batches then Some(batches[p]) else None);
      }
      WriteAll(db, batches, failing, logs, taken);
    }

    /** One pass of the idle loop. */
    method TickAll(nowWall: Time, nowUtc: Time)
      modifies this
      ensures states.Keys == old(states).Keys
      ensures forall p :: p in states ==> states[p] == Ticked(old(states)[p], nowWall, nowUtc)
    {
      var rest := states.Keys;
      while rest != {}
        invariant rest <= old(states).Keys && states.Keys == old(states).Keys
        invariant forall p :: p in states ==>
                    states[p] == if p in rest then old(states)[p] else Ticked(old(states)[p], nowWall, nowUtc)
        decreases rest
      {
        var p := TakeOne(rest);
        var state := new PartitionState.From(states[p]);
        state.TickIdle(nowWall, nowUtc);
        states := states[p := state.Value()];
        rest := rest - {p};
      }
    }

    /** `pre_rebalance` on revoke: the partitions' memory is dropped. */
    method DropRevoked(revoked: seq<int>)
      modifies this
      ensures states == old(states) - (set p | p in revoked)
    {
      for i := 0 to |revoked|
        invariant states == old(states) - (set p | p in revoked[..i])
      {
        states := states - {revoked[i]};
        assert revoked[..i + 1] == revoked[..i] + [revoked[i]];
      }
      assert revoked[..|revoked|] == revoked;
    }

    /** `post_rebalance` on assign: each partition resumes from its progress row,
        or from the default when the row is absent or cannot be read. */
    method ResumeAssigned(granted: seq<int>, db: Database, unreadable: set<int>, now: Time, wall: Time, mode: HllMode)
      modifies this
      ensures states.Keys == old(states).Keys + (set p | p in granted)
      ensures forall p :: p in granted ==>
                var from := ResumePoint(db.TableOf(p), p !in unreadable, now);
                states[p] == ResumeFrom(from.offset, from.flushed, wall, mode)
      ensures forall p :: p in old(states) && p !in granted ==> states[p] == old(states)[p]
    {
      for i := 0 to |granted|
        invariant states.Keys == old(states).Keys + (set p | p in granted[..i])
        invariant forall p :: p in granted[..i] ==>
                    var from := ResumePoint(db.TableOf(p), p !in unreadable, now);
                    states[p] == ResumeFrom(from.offset, from.flushed, wall, mode)
        invariant forall p :: p in old(states) && p !in granted[..i] ==> states[p] == old(states)[p]
      {
        var p := granted[i];
        var from := Progress(0, now - DAY);
        if p !in unreadable {
          var progress := db.LoadProgress(p);
          if progress.Some? {
            from := progress.value;
          }
        }
        states := states[p := ResumeFrom(from.offset, from.flushed, wall, mode)];
        assert granted[..i + 1] == granted[..i] + [p];
      }
      assert granted[..|granted|] == granted;
    }
  }

  /** The take phase is the protocol's `Take` on every partition: the batch it
      leaves in flight is the one the state machine commits. */
  lemma {:induction false} TakePhaseIsTake(s: State, pending: Option<Pending>)
    requires s.mem.Some? && s.batch.None? && PendingMatches(s.mem.value, pending)
    ensures var t := Taken(s);
            && t.batch.Some? == pending.Some?
            && (pending.Some? ==>
                  && ToMap(pending.value.closed) == t.batch.value.closed
                  && pending.value.offset == t.batch.value.offset
                  && pending.value.flushed == t.batch.value.flushed
                  && Carries(pending.value, t))
  {
    hide CommittedOffset, ToMap, AfterTake;
    if pending.Some? {
      ListsToMap(pending.value.closed, Closed(s.mem.value));
    }
  }
}
