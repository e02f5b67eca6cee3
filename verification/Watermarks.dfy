/** What one incarnation of a partition has heard, told from its steps alone, and
    what its memory and its commits make of it: the newest timestamp, the verdict
    Late, the windows a take closes, and the progress a commit stores. */
module Watermarks {
  import opened Collections
  import opened Windows
  import opened Hierarchy
  import opened Sketches
  import opened Aggregates
  import opened Partitions
  import opened Storage
  import opened Protocol

  // ---------- The history of an incarnation ----------

  /** The progress an incarnation resumed from, the wall clock when it last read
      an event or resumed, and the clock readings of the idle ticks that came
      more than ten seconds after that. */
  datatype Life = Life(from: Progress, lastRead: Time, ticks: set<Time>)

  const UNBORN: Life := Life(Progress(0, 0), 0, {})

  /** One more step: no part of it looks at memory. */
  function Lived(log: Log, s: State, life: Life, a: Action): Life
    requires Enabled(log, s, a)
  {
    match a
    case Deliver(wall) => if log[s.pos].Some? then life.(lastRead := wall) else life
    case Tick(nowWall, nowUtc) =>
      if nowWall - life.lastRead > 10 * SECOND then life.(ticks := life.ticks + {nowUtc}) else life
    case Assign(loaded, now, wall, _) => Life(ResumePoint(s.table, loaded, now), wall, {})
    case _ => life
  }

  ghost function LifeAfter(log: Log, hash: Hasher, s: State, life: Life, acts: seq<Action>): Life
    requires Runs(log, hash, s, acts)
    decreases |acts|
  {
    if |acts| == 0 then life
    else LifeAfter(log, hash, Apply(log, hash, s, acts[0]), Lived(log, s, life, acts[0]), acts[1..])
  }

  /** Instant `t` is the watermark resumed from, the timestamp of an event read
      since, or the clock of an idle tick since. */
  ghost predicate Hears(log: Log, life: Life, pos: nat, t: Time) {
    || t == life.from.flushed
    || t in life.ticks
    || exists i :: life.from.offset <= i < pos && IsEvent(log, i) && log[i].value.ts == t
  }

  ghost predicate IsLatest(log: Log, life: Life, pos: nat, t: Time) {
    Hears(log, life, pos, t) && forall u :: Hears(log, life, pos, u) ==> u <= t
  }

  /** Something heard is at least thirty seconds past instant `t`. */
  ghost predicate Due(log: Log, life: Life, pos: nat, t: Time) {
    exists n :: Hears(log, life, pos, n) && t + 30 * SECOND <= n
  }

  /** `n` is one past the last event read, or the offset resumed from. */
  ghost predicate IsReadTo(log: Log, life: Life, pos: nat, n: nat) {
    && life.from.offset <= n <= pos
    && (life.from.offset < n ==> IsEvent(log, n - 1))
    && (forall i :: n <= i < pos ==> !IsEvent(log, i))
  }

  /** Memory's clocks and read position, said of the history. */
  ghost predicate Follows(log: Log, s: State, life: Life) {
    s.mem.Some? ==>
      && IsReadTo(log, life, s.pos, s.mem.value.nextOffset)
      && IsLatest(log, life, s.pos, s.mem.value.maxTs)
      && s.mem.value.lastWall == life.lastRead
  }

  lemma {:induction false} DeliverFollows(log: Log, s: State, life: Life, wall: Time)
    requires Enabled(log, s, Deliver(wall)) && Follows(log, s, life)
    ensures Follows(log, Delivered(log, s, wall), Lived(log, s, life, Deliver(wall)))
  {
    hide AddEvent, WindowStart;
    var t, after := Delivered(log, s, wall), Lived(log, s, life, Deliver(wall));
    forall u
      ensures Hears(log, after, t.pos, u) <==>
              Hears(log, life, s.pos, u)
              || (life.from.offset <= s.pos && IsEvent(log, s.pos) && log[s.pos].value.ts == u)
    {
    }
  }

  lemma {:induction false} TickFollows(log: Log, hash: Hasher, s: State, life: Life, a: Action)
    requires a.Tick? && Enabled(log, s, a) && Follows(log, s, life)
    ensures Follows(log, Apply(log, hash, s, a), Lived(log, s, life, a))
  {
    var t, after := Apply(log, hash, s, a), Lived(log, s, life, a);
    forall u
      ensures Hears(log, after, t.pos, u) <==>
              Hears(log, life, s.pos, u) || (a.nowWall - life.lastRead > 10 * SECOND && u == a.nowUtc)
    {
    }
  }

  lemma {:induction false} StepFollows(log: Log, hash: Hasher, s: State, life: Life, a: Action)
    requires Enabled(log, s, a) && Follows(log, s, life)
    ensures Follows(log, Apply(log, hash, s, a), Lived(log, s, life, a))
  {
    hide AddEvent, WindowStart, CommittedOffset, LeftOut, NewRows;
    match a
    case Deliver(wall) => DeliverFollows(log, s, life, wall);
    case Tick(_, _) => TickFollows(log, hash, s, life, a);
    case _ =>
  }

  lemma {:induction false} RunFollows(log: Log, hash: Hasher, s: State, life: Life, acts: seq<Action>)
    requires Runs(log, hash, s, acts) && Follows(log, s, life)
    ensures Follows(log, Exec(log, hash, s, acts), LifeAfter(log, hash, s, life, acts))
    decreases |acts|
  {
    hide Enabled, Apply, Lived, Follows, Harmless;
    if |acts| > 0 {
      StepFollows(log, hash, s, life, acts[0]);
      RunFollows(log, hash, Apply(log, hash, s, acts[0]), Lived(log, s, life, acts[0]), acts[1..]);
    }
  }

  /** The history of the incarnation a run ends in. */
  ghost function LifeOf(log: Log, hash: Hasher, acts: seq<Action>): Life
    requires Runs(log, hash, INIT, acts)
  {
    LifeAfter(log, hash, INIT, UNBORN, acts)
  }

  /** In every reachable state the newest timestamp is the latest instant heard:
      at least every timestamp read, and one of those, an idle tick's clock, or
      the watermark resumed from. */
  lemma {:induction false} NewestIsLatestHeard(log: Log, hash: Hasher, acts: seq<Action>)
    requires Runs(log, hash, INIT, acts) && Exec(log, hash, INIT, acts).mem.Some?
    ensures var s, life := Exec(log, hash, INIT, acts), LifeOf(log, hash, acts);
            && IsLatest(log, life, s.pos, s.mem.value.maxTs)
            && IsReadTo(log, life, s.pos, s.mem.value.nextOffset)
  {
    hide Runs, Exec, LifeAfter, IsLatest, IsReadTo;
    RunFollows(log, hash, INIT, UNBORN, acts);
  }

  /** A tick within ten seconds of the last event changes nothing; a later one
      makes its clock, if ahead, the newest timestamp, and changes nothing else. */
  lemma {:induction false} TickNeedsIdleness(log: Log, hash: Hasher, acts: seq<Action>, a: Action)
    requires Runs(log, hash, INIT, acts) && a.Tick? && Enabled(log, Exec(log, hash, INIT, acts), a)
    ensures var s, life := Exec(log, hash, INIT, acts), LifeOf(log, hash, acts);
            var t := Apply(log, hash, s, a);
            if a.nowWall - life.lastRead <= 10 * SECOND then t == s
            else t == s.(mem := Some(s.mem.value.(maxTs := Max(s.mem.value.maxTs, a.nowUtc))))
  {
    hide Runs, Exec, LifeAfter, IsLatest, IsReadTo;
    RunFollows(log, hash, INIT, UNBORN, acts);
  }

  // ---------- Late, and closed ----------

  function EndOf(e: Event): Time {
    WindowEnd(WindowStart(e.ts))
  }

  /** Memory would drop this event as Late. */
  predicate LateFor(p: Partition, e: Event) {
    OutcomeOf(p, e).Late?
  }

  lemma {:induction false} DueIffLatest(log: Log, life: Life, pos: nat, newest: Time, t: Time)
    requires IsLatest(log, life, pos, newest)
    ensures Due(log, life, pos, t) <==> t + 30 * SECOND <= newest
  {
    hide Hears;
  }

  /** After a take, whether or not it closed a window, an event is Late if and
      only if it was before or its window ends thirty seconds before something
      heard. */
  lemma {:induction false} LateAfterTake(log: Log, hash: Hasher, acts: seq<Action>, e: Event)
    requires Runs(log, hash, INIT, acts) && Enabled(log, Exec(log, hash, INIT, acts), Take)
    ensures var s, life := Exec(log, hash, INIT, acts), LifeOf(log, hash, acts);
            LateFor(Taken(s).mem.value, e) <==> LateFor(s.mem.value, e) || Due(log, life, s.pos, EndOf(e))
  {
    hide Runs, Exec, LifeAfter, IsLatest, IsReadTo, Due, CommittedOffset, WindowStart;
    var s, life := Exec(log, hash, INIT, acts), LifeOf(log, hash, acts);
    RunFollows(log, hash, INIT, UNBORN, acts);
    DueIffLatest(log, life, s.pos, s.mem.value.maxTs, EndOf(e));
  }

  /** Only a take and a resume change the verdict; a resume makes Late exactly
      what ends at or below the watermark it resumes from. */
  lemma {:induction false} LateOtherwise(log: Log, hash: Hasher, s: State, a: Action, e: Event)
    requires Enabled(log, s, a) && !a.Take? && Apply(log, hash, s, a).mem.Some?
    ensures !a.Assign? ==>
              s.mem.Some? && (LateFor(Apply(log, hash, s, a).mem.value, e) <==> LateFor(s.mem.value, e))
    ensures a.Assign? ==>
              (LateFor(Apply(log, hash, s, a).mem.value, e) <==>
               EndOf(e) <= if a.loaded && s.table.progress.Some? then s.table.progress.value.flushed
                           else a.now - 24 * 3600 * SECOND)
  {
    hide WindowStart, AddEvent, LeftOut, NewRows;
  }

  /** A resume reads again, from nothing, every event the stored watermark does
      not cover: from the stored offset, or, with no progress to be read, from the
      start of the log with a watermark twenty-four hours old. */
  lemma {:induction false} ResumeReadsAgain(log: Log, hash: Hasher, acts: seq<Action>, a: Action)
    requires Runs(log, hash, INIT, acts) && a.Assign? && Enabled(log, Exec(log, hash, INIT, acts), a)
    ensures var s := Exec(log, hash, INIT, acts);
            var t, stored := Apply(log, hash, s, a), s.table.progress;
            && t.table == s.table && t.mem.Some? && t.mem.value.open == map[]
            && (t.mem.value.mode.HllOn? <==> a.hll) && ModeUses(t.mem.value.mode, hash)
            && t.pos == t.mem.value.nextOffset
            && (if a.loaded && stored.Some?
                then t.pos == stored.value.offset && t.mem.value.flushed == stored.value.flushed
                else t.pos == 0 && t.mem.value.flushed == a.now - 24 * 3600 * SECOND)
            && forall i :: IsEvent(log, i) && EndAt(log, i) > t.mem.value.flushed ==> i >= t.pos
  {
    hide Runs, Exec, StoredHolds, MemSound, BatchSound, WindowStart;
    InitInv(log, hash);
    RunInv(log, hash, INIT, acts);
  }

  /** The verdict on the next entry, said of the log: Late by the watermark,
      Duplicate if this incarnation has its id from an earlier entry of the
      window, else Accepted. */
  lemma {:induction false} VerdictMeans(log: Log, hash: Hasher, acts: seq<Action>, e: Event)
    requires Runs(log, hash, INIT, acts) && Exec(log, hash, INIT, acts).mem.Some?
    ensures var p := Exec(log, hash, INIT, acts).mem.value;
            var seen := exists j :: 0 <= j < p.nextOffset && InWindow(log, j, WindowStart(e.ts))
                                    && log[j].value.id == e.id;
            && (OutcomeOf(p, e).Late? <==> EndOf(e) <= p.flushed)
            && (OutcomeOf(p, e).Duplicate? <==> EndOf(e) > p.flushed && seen)
            && (OutcomeOf(p, e).Accepted? <==> EndOf(e) > p.flushed && !seen)
  {
    hide Runs, Exec, TableSound, BatchSound, WindowStart, CellsHold;
    var p, w := Exec(log, hash, INIT, acts).mem.value, WindowStart(e.ts);
    InitInv(log, hash);
    RunInv(log, hash, INIT, acts);
    if w in p.open {
      assert TracksWindow(log, p, w);
      forall j | 0 <= j < p.nextOffset && InWindow(log, j, w) && log[j].value.id == e.id
        ensures e.id in p.open[w].seenIds
      {
        var i := FirstOccurrence(log, j, w);
        assert i in Counted(log, p.nextOffset, w);
      }
    }
  }

  /** A take closes exactly the open windows that end thirty seconds before
      something heard: those go in flight as they are, the others stay. */
  lemma {:induction false} TakeSplitsOpen(log: Log, hash: Hasher, acts: seq<Action>)
    requires Runs(log, hash, INIT, acts) && Enabled(log, Exec(log, hash, INIT, acts), Take)
    ensures var s, life := Exec(log, hash, INIT, acts), LifeOf(log, hash, acts);
            var t, before := Taken(s), s.mem.value.open;
            && t.mem.value == s.mem.value.(open := t.mem.value.open, flushed := t.mem.value.flushed)
            && (forall w :: w in t.mem.value.open <==> w in before && !Due(log, life, s.pos, WindowEnd(w)))
            && (forall w :: w in t.mem.value.open ==> t.mem.value.open[w] == before[w])
            && (t.batch.Some? <==> exists w :: w in before && Due(log, life, s.pos, WindowEnd(w)))
            && (t.batch.Some? ==> var closed := t.batch.value.closed;
                                  && (forall w :: w in closed <==> w in before && Due(log, life, s.pos, WindowEnd(w)))
                                  && (forall w :: w in closed ==> closed[w] == before[w]))
  {
    hide Runs, Exec, LifeAfter, IsLatest, IsReadTo, Due, CommittedOffset;
    var s, life := Exec(log, hash, INIT, acts), LifeOf(log, hash, acts);
    RunFollows(log, hash, INIT, UNBORN, acts);
    forall w | w in s.mem.value.open
      ensures Due(log, life, s.pos, WindowEnd(w)) <==> WindowEnd(w) <= Watermark(s.mem.value)
    {
      DueIffLatest(log, life, s.pos, s.mem.value.maxTs, WindowEnd(w));
    }
    assert forall w :: w in Closed(s.mem.value).Keys <==> w in s.mem.value.open && Due(log, life, s.pos, WindowEnd(w));
  }

  // ---------- What a commit stores ----------

  /** `offset` is the least position below `readTo` whose window ends past
      `flushed`, or `readTo` if there is none. */
  ghost predicate IsResumeOffset(log: Log, readTo: nat, flushed: Time, offset: nat) {
    && offset <= readTo
    && (forall i :: 0 <= i < offset && IsEvent(log, i) ==> EndAt(log, i) <= flushed)
    && (offset < readTo ==> IsEvent(log, offset) && EndAt(log, offset) > flushed)
  }

  /** The stored progress of an incarnation that had read to here when it took. */
  ghost predicate IsProgressOf(log: Log, life: Life, pos: nat, progress: Progress) {
    && IsLatest(log, life, pos, progress.flushed + 30 * SECOND)
    && exists readTo: nat :: IsReadTo(log, life, pos, readTo)
                             && IsResumeOffset(log, readTo, progress.flushed, progress.offset)
  }

  lemma {:induction false} OffsetIsLeast(log: Log, p: Partition)
    requires Tracks(log, p)
    ensures IsResumeOffset(log, p.nextOffset, p.flushed, CommittedOffset(p))
  {
    hide WindowStart, CellsHold;
    CommittedOffsetSafe(log, p);
    if p.open.Keys != {} {
      var w :| w in p.open && p.open[w].minOffset == CommittedOffset(p);
      assert TracksWindow(log, p, w);
    }
  }

  /** What a take puts in flight. */
  lemma {:induction false} TakenIsProgress(log: Log, hash: Hasher, acts: seq<Action>)
    requires Runs(log, hash, INIT, acts) && Enabled(log, Exec(log, hash, INIT, acts), Take)
    ensures var s, life := Exec(log, hash, INIT, acts), LifeOf(log, hash, acts);
            var b := Taken(s).batch;
            b.Some? ==> IsProgressOf(log, life, s.pos, Progress(b.value.offset, b.value.flushed))
  {
    hide Runs, Exec, LifeAfter, IsLatest, IsReadTo, TableSound, WindowStart, CommittedOffset, WindowHolds;
    hide IsResumeOffset;
    var s, life := Exec(log, hash, INIT, acts), LifeOf(log, hash, acts);
    InitInv(log, hash);
    RunInv(log, hash, INIT, acts);
    RunFollows(log, hash, INIT, UNBORN, acts);
    if Taken(s).batch.Some? {
      var p := s.mem.value;
      var w := Pick(Closed(p).Keys);
      assert TracksWindow(log, p, w);
      TakeTracks(log, p);
      OffsetIsLeast(log, AfterTake(p));
    }
  }

  /** Nothing in the run ends a batch in flight. */
  predicate LeavesBatch(acts: seq<Action>) {
    forall i :: 0 <= i < |acts| ==> !acts[i].Commit? && !acts[i].FlushFails? && !acts[i].Crash?
  }

  lemma {:induction false} BatchWaits(log: Log, hash: Hasher, s: State, acts: seq<Action>)
    requires Runs(log, hash, s, acts) && s.batch.Some? && LeavesBatch(acts)
    ensures var e := Exec(log, hash, s, acts);
            && e.batch.Some? && e.batch.value.offset == s.batch.value.offset
            && e.batch.value.flushed == s.batch.value.flushed && e.batch.value.closed == s.batch.value.closed
    decreases |acts|
  {
    hide AddEvent, WindowStart, Harmless;
    if |acts| > 0 {
      BatchWaits(log, hash, Apply(log, hash, s, acts[0]), acts[1..]);
    }
  }

  /** A commit stores the progress of its take, whatever is read, ticked, revoked
      or resumed in between: the watermark is the latest instant heard by then
      less thirty seconds, and the offset is the least position read by then
      whose window ends past that watermark, or the read position. */
  lemma {:induction false} CommitStoresItsTake(log: Log, hash: Hasher, acts: seq<Action>, between: seq<Action>)
    requires Runs(log, hash, INIT, acts) && Enabled(log, Exec(log, hash, INIT, acts), Take)
    requires Apply(log, hash, Exec(log, hash, INIT, acts), Take).batch.Some?
    requires Runs(log, hash, Apply(log, hash, Exec(log, hash, INIT, acts), Take), between) && LeavesBatch(between)
    ensures var s, life := Exec(log, hash, INIT, acts), LifeOf(log, hash, acts);
            var e := Exec(log, hash, Apply(log, hash, s, Take), between);
            && Enabled(log, e, Commit)
            && var progress := Apply(log, hash, e, Commit).table.progress;
               progress.Some? && IsProgressOf(log, life, s.pos, progress.value)
  {
    hide Runs, Exec, LifeAfter, IsProgressOf, Taken, LeftOut, NewRows;
    var s := Exec(log, hash, INIT, acts);
    TakenIsProgress(log, hash, acts);
    BatchWaits(log, hash, Apply(log, hash, s, Take), between);
  }

  /** A drain stores everything: with a window open and nothing in flight, an
      idle tick ninety seconds past all that was heard, a take and a commit leave
      nothing open and store the read position. */
  lemma {:induction false} DrainStoresReadPosition(log: Log, hash: Hasher, acts: seq<Action>, nowWall: Time,
                                                   nowUtc: Time)
    requires Runs(log, hash, INIT, acts)
    requires var s := Exec(log, hash, INIT, acts); s.mem.Some? && s.batch.None? && s.mem.value.open.Keys != {}
    requires nowWall - LifeOf(log, hash, acts).lastRead > 10 * SECOND
    requires forall n :: Hears(log, LifeOf(log, hash, acts), Exec(log, hash, INIT, acts).pos, n) ==>
                           n + 90 * SECOND <= nowUtc
    ensures var s, drain := Exec(log, hash, INIT, acts), [Tick(nowWall, nowUtc), Take, Commit];
            && Runs(log, hash, s, drain)
            && var e := Exec(log, hash, s, drain);
            && e.mem.Some? && e.mem.value.open == map[] && e.batch.None?
            && e.table.progress == Some(Progress(s.mem.value.nextOffset, nowUtc - 30 * SECOND))
  {
    hide Runs, Exec, LifeAfter, Hears, IsReadTo, TableSound, WindowStart, NewRows, LeftOut, WindowHolds;
    var s, p := Exec(log, hash, INIT, acts), Exec(log, hash, INIT, acts).mem.value;
    InitInv(log, hash);
    RunInv(log, hash, INIT, acts);
    RunFollows(log, hash, INIT, UNBORN, acts);
    DrainBound(log, p, nowWall, nowUtc);
    var tick := Tick(nowWall, nowUtc);
    var s1 := Apply(log, hash, s, tick);
    var w := Pick(p.open.Keys);
    assert TracksWindow(log, p, w);
    assert w in Closed(s1.mem.value).Keys;
    var s2 := Apply(log, hash, s1, Take);
    var s3 := Apply(log, hash, s2, Commit);
    ThreeSteps(log, hash, s, tick, Take, Commit);
  }

  lemma {:induction false} ThreeSteps(log: Log, hash: Hasher, s: State, a: Action, b: Action, c: Action)
    requires Enabled(log, s, a) && !a.Assign? && !b.Assign? && !c.Assign?
    requires Enabled(log, Apply(log, hash, s, a), b)
    requires Enabled(log, Apply(log, hash, Apply(log, hash, s, a), b), c)
    ensures Runs(log, hash, s, [a, b, c])
    ensures Exec(log, hash, s, [a, b, c]) == Apply(log, hash, Apply(log, hash, Apply(log, hash, s, a), b), c)
  {
    hide Enabled, Apply, Harmless;
    var s1 := Apply(log, hash, s, a);
    var s2 := Apply(log, hash, s1, b);
    assert [a, b, c][1..] == [b, c] && [b, c][1..] == [c] && [c][1..] == [];
    var s3 := Apply(log, hash, s2, c);
    assert Runs(log, hash, s3, []) && Exec(log, hash, s3, []) == s3;
    assert Runs(log, hash, s2, [c]) && Exec(log, hash, s2, [c]) == s3;
    assert Runs(log, hash, s1, [b, c]) && Exec(log, hash, s1, [b, c]) == s3;
  }
}
