/** The log grows: what holds of a state at rest holds of it over every longer
    log, so a resume can be judged before the rest of the log is known. */
module Growth {
  import opened Collections
  import opened Windows
  import opened Hierarchy
  import opened Sketches
  import opened Aggregates
  import opened Storage
  import opened Protocol
  import opened Handovers

  // ---------- Counting below a position ignores what comes after ----------

  lemma {:induction false} InWindowGrows(log: Log, more: Log, i: int, w: Time)
    requires i < |log|
    ensures InWindow(log + more, i, w) <==> InWindow(log, i, w)
    ensures FirstInWindow(log + more, i, w) <==> FirstInWindow(log, i, w)
  {
    hide WindowStart;
    assert forall j :: 0 <= j <= i ==> (log + more)[j] == log[j];
    assert forall j :: 0 <= j <= i ==> (InWindow(log + more, j, w) <==> InWindow(log, j, w));
  }

  lemma {:induction false} CountedSame(log: Log, more: Log, n: nat, w: Time)
    requires n <= |log|
    ensures Counted(log + more, n, w) == Counted(log, n, w) && IdsIn(log + more, n, w) == IdsIn(log, n, w)
    ensures forall c :: CountedIn(log + more, n, w, c) == CountedIn(log, n, w, c)
    ensures forall c :: UsersIn(log + more, n, w, c) == UsersIn(log, n, w, c)
  {
    hide InWindow, FirstInWindow, Contributes;
    forall i | 0 <= i < n
      ensures FirstInWindow(log + more, i, w) <==> FirstInWindow(log, i, w)
      ensures (log + more)[i] == log[i]
    {
      InWindowGrows(log, more, i, w);
    }
    EventsOnly(log, n, w);
    EventsOnly(log + more, n, w);
    assert Counted(log + more, n, w) == Counted(log, n, w);
    forall c
      ensures CountedIn(log + more, n, w, c) == CountedIn(log, n, w, c)
      ensures UsersIn(log + more, n, w, c) == UsersIn(log, n, w, c)
    {
      assert CountedIn(log + more, n, w, c) == CountedIn(log, n, w, c);
    }
  }

  lemma {:induction false} EventsOnly(log: Log, n: nat, w: Time)
    ensures forall i :: 0 <= i < n && FirstInWindow(log, i, w) ==> IsEvent(log, i)
  {
  }

  lemma {:induction false} WindowHoldsGrows(log: Log, more: Log, n: nat, w: Time, win: Window, mode: HllMode)
    requires n <= |log| && WindowHolds(log, n, w, win, mode)
    ensures WindowHolds(log + more, n, w, win, mode)
  {
    hide CountedIn, UsersIn, IdsIn, Summarises, InWindow;
    CountedSame(log, more, n, w);
    forall j | 0 <= j < n
      ensures InWindow(log + more, j, w) <==> InWindow(log, j, w)
    {
      InWindowGrows(log, more, j, w);
    }
  }

  lemma {:induction false} StoredHoldsGrows(log: Log, more: Log, hash: Hasher, n: nat, w: Time, rows: map<RowKey, Row>)
    requires n <= |log| && StoredHolds(log, hash, n, w, rows)
    ensures StoredHolds(log + more, hash, n, w, rows)
  {
    hide CountedIn, UsersIn;
    CountedSame(log, more, n, w);
  }

  lemma {:induction false} OffsetSoundGrows(log: Log, more: Log, offset: nat, flushed: Time)
    requires OffsetSound(log, offset, flushed)
    ensures OffsetSound(log + more, offset, flushed)
  {
    forall i | 0 <= i < offset && IsEvent(log + more, i)
      ensures EndAt(log + more, i) <= flushed
    {
      assert (log + more)[i] == log[i] && IsEvent(log, i);
    }
  }

  /** Without memory, the invariant survives every growth of the log. */
  lemma {:induction false} InvGrows(log: Log, more: Log, hash: Hasher, s: State)
    requires Inv(log, hash, s) && s.mem.None?
    ensures Inv(log + more, hash, s)
  {
    hide StoredHolds, WindowHolds, OffsetSound;
    forall w | w in s.trace.taken
      ensures StoredHolds(log + more, hash, s.trace.taken[w], w, s.table.rows)
    {
      StoredHoldsGrows(log, more, hash, s.trace.taken[w], w, s.table.rows);
    }
    if s.table.progress.Some? {
      OffsetSoundGrows(log, more, s.table.progress.value.offset, s.table.progress.value.flushed);
    }
    if s.batch.Some? {
      var b := s.batch.value;
      OffsetSoundGrows(log, more, b.offset, b.flushed);
      forall w | w in b.closed
        ensures TakenSound(log + more, s.table, b, w)
      {
        assert TakenSound(log, s.table, b, w);
        WindowHoldsGrows(log, more, b.takenAt, w, b.closed[w], b.mode);
      }
    }
  }

  // ---------- A resume, before the rest of the log is known ----------

  /** The newest watermark stored or in flight. */
  function HighWater(s: State): Option<Time> {
    match (s.table.progress, s.batch)
    case (None, None) => None
    case (Some(p), None) => Some(p.flushed)
    case (None, Some(b)) => Some(b.flushed)
    case (Some(p), Some(b)) => Some(Max(p.flushed, b.flushed))
  }

  /** No minute boundary lies past the watermark resumed from and at or below
      the newest one: what a caller can check from the tables and the clock. */
  predicate NoBoundary(s: State, a: Action)
    requires a.Assign?
  {
    HighWater(s).Some? ==> WindowStart(HighWater(s).value) <= ResumePoint(s.table, a.loaded, a.now).flushed
  }

  lemma {:induction false} HarmlessWhateverComesIff(log: Log, s: State, a: Action)
    requires a.Assign?
    ensures (forall more: Log :: Harmless(log + more, s, a)) <==> NoBoundary(s, a)
  {
    var from := ResumePoint(s.table, a.loaded, a.now).flushed;
    if HighWater(s).Some? && WindowStart(HighWater(s).value) > from {
      var t := WindowStart(HighWater(s).value);
      var more := EndingAt(log, t);
      assert Reached(s, t);
      assert !Harmless(log + more, s, a);
    } else {
      forall more: Log
        ensures Harmless(log + more, s, a)
      {
        NoBoundaryIsHarmless(log + more, s, a);
      }
    }
  }

  lemma {:induction false} EndingAt(log: Log, t: Time) returns (more: Log)
    requires Aligned(t)
    ensures IsEvent(log + more, |log|) && EndAt(log + more, |log|) == t
  {
    more := [Some(Event(0, "", t - WINDOW_SIZE, "", "", 0, KindEdit, false))];
    WindowStartUnique(t - WINDOW_SIZE, t - WINDOW_SIZE);
  }

  lemma {:induction false} NoBoundaryIsHarmless(log: Log, s: State, a: Action)
    requires a.Assign?
    requires NoBoundary(s, a)
    ensures Harmless(log, s, a)
  {
    hide WindowStart, Aligned;
    forall i | IsEvent(log, i) && Reached(s, EndAt(log, i))
      ensures EndAt(log, i) <= ResumePoint(s.table, a.loaded, a.now).flushed
    {
      WindowEndAligned(StartAt(log, i));
      WindowStartGreatest(HighWater(s).value, EndAt(log, i));
    }
  }

  /** Whatever the log may still bring: a resume keeps every promise over every
      continuation of the log, and over every run on it, if and only if no minute
      boundary lies past its watermark and at or below the newest one. */
  lemma {:induction false} SafeWhateverComesIff(log: Log, hash: Hasher, s: State, a: Action)
    requires Inv(log, hash, s) && s.mem.None? && a.Assign?
    ensures (forall more: Log :: AllRunsKeepPromises(log + more, hash, Assigned(hash, s, a))) <==> NoBoundary(s, a)
  {
    hide Inv, AllRunsKeepPromises, Harmless, Assigned, NoBoundary;
    forall more: Log
      ensures AllRunsKeepPromises(log + more, hash, Assigned(hash, s, a)) <==> Harmless(log + more, s, a)
    {
      InvGrows(log, more, hash, s);
      AssignHarmlessIff(log + more, hash, s, a);
    }
    HarmlessWhateverComesIff(log, s, a);
  }
}
