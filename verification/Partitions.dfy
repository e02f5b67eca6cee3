/** One assigned partition's in-memory state: crates/aggregator/src/window.rs. */
module Partitions {
  import opened Collections
  import opened Windows
  import opened Hierarchy
  import opened Aggregates

  datatype Outcome = Accepted | Late | Duplicate

  /** The fields of `PartitionState`, as a value. */
  datatype Partition = Partition(open: map<Time, Window>, maxTs: Time, flushed: Time, nextOffset: nat,
                                 lastWall: Time, mode: HllMode)

  // ---------- Operations, as functions on the value ----------

  function ResumeFrom(offset: nat, flushed: Time, wall: Time, mode: HllMode): Partition {
    Partition(map[], flushed, flushed, offset, wall, mode)
  }

  function Watermark(p: Partition): Time {
    p.maxTs - ALLOWED_LATENESS
  }

  function OutcomeOf(p: Partition, e: Event): Outcome {
    var w := WindowStart(e.ts);
    if WindowEnd(w) <= p.flushed then Late
    else if w in p.open && e.id in p.open[w].seenIds then Duplicate
    else Accepted
  }

  function Processed(p: Partition, e: Event, offset: nat, wall: Time): Partition {
    var w := WindowStart(e.ts);
    var seen := p.(nextOffset := offset + 1, lastWall := wall, maxTs := Max(p.maxTs, e.ts));
    if OutcomeOf(p, e).Accepted? then
      var win := if w in p.open then p.open[w] else FreshWindow(offset);
      seen.(open := p.open[w := AddEvent(win, e, offset, p.mode)])
    else seen
  }

  predicate TickTakesEffect(p: Partition, nowWall: Time, nowUtc: Time) {
    nowWall - p.lastWall > IDLE_PARTITION_TIMEOUT && nowUtc > p.maxTs
  }

  function Ticked(p: Partition, nowWall: Time, nowUtc: Time): Partition {
    if TickTakesEffect(p, nowWall, nowUtc) then p.(maxTs := nowUtc) else p
  }

  function Closed(p: Partition): map<Time, Window> {
    map w | w in p.open && WindowEnd(w) <= Watermark(p) :: p.open[w]
  }

  function AfterTake(p: Partition): Partition {
    p.(open := map w | w in p.open && WindowEnd(w) > Watermark(p) :: p.open[w],
       flushed := Max(p.flushed, Watermark(p)))
  }

  ghost predicate IsLeastOffset(open: map<Time, Window>, m: nat) {
    && (exists w :: w in open && open[w].minOffset == m)
    && (forall w :: w in open ==> m <= open[w].minOffset)
  }

  lemma {:induction false} LeastOffsetExists(open: map<Time, Window>)
    requires open.Keys != {}
    ensures exists m :: IsLeastOffset(open, m)
  {
    var offsets: set<int> := set w | w in open :: open[w].minOffset;
    var w := Pick(open.Keys);
    LeastExists(offsets, open[w].minOffset);
    var m :| m in offsets && forall x :: x in offsets ==> m <= x;
    assert forall v :: v in open ==> open[v].minOffset in offsets;
    assert IsLeastOffset(open, m);
  }

  /** The offset that is safe to resume from. */
  ghost function CommittedOffset(p: Partition): (m: nat)
    ensures p.open.Keys == {} ==> m == p.nextOffset
    ensures p.open.Keys != {} ==> IsLeastOffset(p.open, m)
  {
    if p.open.Keys == {} then p.nextOffset
    else
      LeastOffsetExists(p.open);
      var m :| IsLeastOffset(p.open, m);
      m
  }

  // ---------- What the state must be, said of the log ----------

  /** The open windows are exactly the windows past the flushed watermark that
      the consumed part of the log has events for, and each holds exactly
      those events: memory is a function of the log, however it was reached. */
  ghost predicate Tracks(log: Log, p: Partition) {
    && p.nextOffset <= |log|
    && (forall w :: w in p.open ==> TracksWindow(log, p, w))
    && (forall i :: 0 <= i < p.nextOffset && IsEvent(log, i) && EndAt(log, i) > p.flushed ==> StartAt(log, i) in p.open)
  }

  ghost predicate TracksWindow(log: Log, p: Partition, w: Time)
    requires w in p.open
  {
    && WindowHolds(log, p.nextOffset, w, p.open[w], p.mode)
    && WindowEnd(w) > p.flushed
    && w <= p.maxTs
  }

  lemma {:induction false} SkipOneTracks(log: Log, p: Partition)
    requires Tracks(log, p) && p.nextOffset < |log| && log[p.nextOffset].None?
    ensures Tracks(log, p.(nextOffset := p.nextOffset + 1))
  {
    hide WindowStart, WindowHolds;
    var q := p.(nextOffset := p.nextOffset + 1);
    forall w | w in q.open
      ensures TracksWindow(log, q, w)
    {
      assert TracksWindow(log, p, w);
      WindowHoldsSkips(log, p.nextOffset, w, p.open[w], p.mode);
    }
  }

  /** Messages that do not decode move only the read position. */
  lemma {:induction false} SkipTracks(log: Log, p: Partition, offset: nat)
    requires Tracks(log, p) && p.nextOffset <= offset <= |log|
    requires forall i :: p.nextOffset <= i < offset ==> log[i].None?
    ensures Tracks(log, p.(nextOffset := offset))
    decreases offset - p.nextOffset
  {
    if p.nextOffset < offset {
      SkipOneTracks(log, p);
      SkipTracks(log, p.(nextOffset := p.nextOffset + 1), offset);
    } else {
      assert p.(nextOffset := offset) == p;
    }
  }

  lemma {:induction false} ProcessTracksWindow(log: Log, p: Partition, wall: Time, w: Time)
    requires Tracks(log, p) && IsEvent(log, p.nextOffset)
    requires w in Processed(p, log[p.nextOffset].value, p.nextOffset, wall).open
    ensures TracksWindow(log, Processed(p, log[p.nextOffset].value, p.nextOffset, wall), w)
  {
    hide WindowStart;
    hide WindowHolds, AddEvent;
    var n, e := p.nextOffset, log[p.nextOffset].value;
    if w in p.open {
      assert TracksWindow(log, p, w);
      if w != StartAt(log, n) {
        WindowHoldsSkips(log, n, w, p.open[w], p.mode);
      } else if e.id in p.open[w].seenIds {
        RepeatHolds(log, n, w, p.open[w], p.mode);
      } else {
        AddEventHolds(log, n, w, p.open[w], p.mode);
      }
    } else {
      FirstEventHolds(log, n, w, p.mode);
    }
  }

  /** Consuming the next event keeps memory equal to the log's reference. */
  lemma {:induction false} ProcessTracks(log: Log, p: Partition, wall: Time)
    requires Tracks(log, p) && IsEvent(log, p.nextOffset)
    ensures Tracks(log, Processed(p, log[p.nextOffset].value, p.nextOffset, wall))
  {
    hide WindowStart, WindowHolds, AddEvent;
    var q := Processed(p, log[p.nextOffset].value, p.nextOffset, wall);
    forall w | w in q.open
      ensures TracksWindow(log, q, w)
    {
      ProcessTracksWindow(log, p, wall, w);
    }
  }

  lemma {:induction false} TickTracks(log: Log, p: Partition, nowWall: Time, nowUtc: Time)
    requires Tracks(log, p)
    ensures Tracks(log, Ticked(p, nowWall, nowUtc))
  {
  }

  lemma {:induction false} TakeTracks(log: Log, p: Partition)
    requires Tracks(log, p)
    ensures Tracks(log, AfterTake(p))
  {
  }

  /** Every event below the committed offset belongs to a window at or below
      the flushed watermark: nothing an open window needs is ever skipped. */
  lemma {:induction false} CommittedOffsetSafe(log: Log, p: Partition)
    requires Tracks(log, p)
    ensures CommittedOffset(p) <= p.nextOffset
    ensures forall i :: 0 <= i < CommittedOffset(p) && IsEvent(log, i) ==> EndAt(log, i) <= p.flushed
  {
    hide WindowStart;
    var m := CommittedOffset(p);
    if p.open.Keys != {} {
      var w :| w in p.open && p.open[w].minOffset == m;
      assert TracksWindow(log, p, w);
    }
    forall i | 0 <= i < p.nextOffset && IsEvent(log, i) && EndAt(log, i) > p.flushed
      ensures m <= i
    {
      var w := StartAt(log, i);
      assert TracksWindow(log, p, w);
      assert InWindow(log, i, w);
    }
  }

  // ---------- Bounds ----------

  /** Right after a take at most two windows stay open: their starts are
      aligned and lie within ninety seconds of the newest timestamp. */
  lemma {:induction false} AtMostTwoOpen(log: Log, p: Partition)
    requires Tracks(log, p)
    ensures |AfterTake(p).open| <= 2
  {
    hide WindowStart, WindowHolds;
    var q := AfterTake(p);
    var newest := WindowStart(q.maxTs);
    forall w | w in q.open
      ensures w == newest || w == newest - WINDOW_SIZE
    {
      assert TracksWindow(log, p, w);
      OpenHasStart(log, p, w);
      OpenStartIsRecent(log, p.open[w].minOffset, w, p.maxTs);
    }
    SubsetCard(q.open.Keys, {newest, newest - WINDOW_SIZE});
  }

  lemma {:induction false} OpenHasStart(log: Log, p: Partition, w: Time)
    requires w in p.open && TracksWindow(log, p, w)
    ensures InWindow(log, p.open[w].minOffset, w)
  {
    hide CellsHold;
  }

  lemma {:induction false} OpenStartIsRecent(log: Log, i: nat, w: Time, ts: Time)
    requires InWindow(log, i, w) && w <= ts && WindowEnd(w) > ts - ALLOWED_LATENESS
    ensures w == WindowStart(ts) || w == WindowStart(ts) - WINDOW_SIZE
  {
    assert Aligned(w);
    if ts < WindowEnd(w) {
      WindowStartUnique(ts, w);
    } else {
      WindowStartUnique(ts, w + WINDOW_SIZE);
    }
  }

  /** An effective idle tick ninety seconds past the newest timestamp drains
      the partition at the next take: every offset consumed becomes safe. */
  lemma {:induction false} DrainBound(log: Log, p: Partition, nowWall: Time, nowUtc: Time)
    requires Tracks(log, p)
    requires TickTakesEffect(p, nowWall, nowUtc) && nowUtc >= p.maxTs + WINDOW_SIZE + ALLOWED_LATENESS
    ensures AfterTake(Ticked(p, nowWall, nowUtc)).open == map[]
    ensures CommittedOffset(AfterTake(Ticked(p, nowWall, nowUtc))) == p.nextOffset
  {
  }

  // ---------- The state updated in place ----------

  /** A list of windows, oldest first, with exactly the entries of a map. */
  ghost predicate Lists(closed: seq<(Time, Window)>, windows: map<Time, Window>) {
    && (forall i, j :: 0 <= i < j < |closed| ==> closed[i].0 < closed[j].0)
    && (forall i :: 0 <= i < |closed| ==> closed[i].0 in windows && windows[closed[i].0] == closed[i].1)
    && (forall w :: w in windows ==> exists i :: 0 <= i < |closed| && closed[i].0 == w)
  }

  /** The keys of a `BTreeMap`, in order. */
  method SortedKeys(keys: set<Time>) returns (sorted: seq<Time>)
    ensures forall i, j :: 0 <= i < j < |sorted| ==> sorted[i] < sorted[j]
    ensures forall t :: t in sorted <==> t in keys
  {
    sorted := [];
    var rest := keys;
    while rest != {}
      invariant rest <= keys
      invariant forall i, j :: 0 <= i < j < |sorted| ==> sorted[i] < sorted[j]
      invariant forall t :: t in keys <==> t in sorted || t in rest
      invariant forall i, t :: 0 <= i < |sorted| && t in rest ==> sorted[i] < t
      decreases rest
    {
      LeastExists(rest, Pick(rest));
      var least :| least in rest && forall t :: t in rest ==> least <= t;
      sorted := sorted + [least];
      rest := rest - {least};
    }
  }

  /** The removal loop of `take_closed_windows`: each start leaves the map and
      joins the list. */
  method RemoveWindows(open: map<Time, Window>, starts: seq<Time>)
      returns (closed: seq<(Time, Window)>, left: map<Time, Window>)
    requires forall i, j :: 0 <= i < j < |starts| ==> starts[i] < starts[j]
    requires forall i :: 0 <= i < |starts| ==> starts[i] in open
    ensures |closed| == |starts| && forall i :: 0 <= i < |closed| ==> closed[i] == (starts[i], open[starts[i]])
    ensures left == open - (set w | w in starts)
    ensures Lists(closed, map w | w in open && w in starts :: open[w])
  {
    closed, left := [], open;
    for i := 0 to |starts|
      invariant |closed| == i && forall j :: 0 <= j < i ==> closed[j] == (starts[j], open[starts[j]])
      invariant left == open - (set w | w in starts[..i])
    {
      assert starts[i] in starts && starts[i] !in starts[..i];
      assert starts[..i + 1] == starts[..i] + [starts[i]];
      closed := closed + [(starts[i], left[starts[i]])];
      left := left - {starts[i]};
    }
    assert starts[..|starts|] == starts;
    forall w | w in starts
      ensures exists i :: 0 <= i < |closed| && closed[i].0 == w
    {
      var i :| 0 <= i < |starts| && starts[i] == w;
      assert closed[i].0 == w;
    }
  }

  class PartitionState {
    var openWindows: map<Time, Window>
    var maxEventTs: Time
    var flushedWatermark: Time
    var nextOffset: nat
    var lastEventWall: Time
    var mode: HllMode

    function Value(): Partition
      reads this
    {
      Partition(openWindows, maxEventTs, flushedWatermark, nextOffset, lastEventWall, mode)
    }

    constructor (committedOffset: nat, flushed: Time, wall: Time, hll: HllMode)
      ensures Value() == ResumeFrom(committedOffset, flushed, wall, hll)
    {
      openWindows := map[];
      maxEventTs := flushed;
      flushedWatermark := flushed;
      nextOffset := committedOffset;
      lastEventWall := wall;
      mode := hll;
    }

    /** The state with these fields. */
    constructor From(p: Partition)
      ensures Value() == p
    {
      openWindows := p.open;
      maxEventTs := p.maxTs;
      flushedWatermark := p.flushed;
      nextOffset := p.nextOffset;
      lastEventWall := p.lastWall;
      mode := p.mode;
    }

    method ProcessEvent(e: Event, offset: nat, wall: Time) returns (outcome: Outcome)
      modifies this
      ensures outcome == OutcomeOf(old(Value()), e)
      ensures Value() == Processed(old(Value()), e, offset, wall)
      ensures nextOffset == offset + 1 && lastEventWall == wall && maxEventTs == Max(old(maxEventTs), e.ts)
      ensures flushedWatermark == old(flushedWatermark) && mode == old(mode)
      ensures !outcome.Accepted? ==> openWindows == old(openWindows)
    {
      nextOffset := offset + 1;
      lastEventWall := wall;
      if e.ts > maxEventTs {
        maxEventTs := e.ts;
      }
      var start := WindowStart(e.ts);
      if WindowEnd(start) <= flushedWatermark {
        return Late;
      }
      var window := if start in openWindows then openWindows[start] else FreshWindow(offset);
      if e.id in window.seenIds {
        return Duplicate;
      }
      var cells := BumpCells(window.cells, CellsForEvent(e), e.user, mode);
      openWindows := openWindows[start := Window(Min(window.minOffset, offset), window.seenIds + {e.id}, cells)];
      return Accepted;
    }

    method TickIdle(nowWall: Time, nowUtc: Time)
      modifies this
      ensures Value() == Ticked(old(Value()), nowWall, nowUtc)
      ensures nowWall - lastEventWall <= 10 * SECOND ==> Value() == old(Value())
      ensures nowWall - lastEventWall > 10 * SECOND ==>
                Value() == old(Value()).(maxTs := Max(old(maxEventTs), nowUtc))
    {
      if nowWall - lastEventWall > IDLE_PARTITION_TIMEOUT && nowUtc > maxEventTs {
        maxEventTs := nowUtc;
      }
    }

    method TakeClosedWindows() returns (closed: seq<(Time, Window)>)
      modifies this
      ensures Value() == AfterTake(old(Value()))
      ensures Lists(closed, Closed(old(Value())))
      ensures flushedWatermark == Max(old(flushedWatermark), maxEventTs - 30 * SECOND)
      ensures maxEventTs == old(maxEventTs) && nextOffset == old(nextOffset)
      ensures lastEventWall == old(lastEventWall) && mode == old(mode)
    {
      var watermark := maxEventTs - ALLOWED_LATENESS;
      var starts := SortedKeys(set w | w in openWindows && WindowEnd(w) <= watermark);
      assert forall i :: 0 <= i < |starts| ==> starts[i] in starts;
      closed, openWindows := RemoveWindows(openWindows, starts);
      if watermark > flushedWatermark {
        flushedWatermark := watermark;
      }
      ghost var left := AfterTake(old(Value())).open;
      assert forall w :: w in left <==> w in openWindows;
      assert openWindows == left;
      ghost var listed := map w | w in old(openWindows) && w in starts :: old(openWindows)[w];
      assert listed == Closed(old(Value()));
    }

    method SafeOffset() returns (offset: nat)
      ensures offset == CommittedOffset(Value())
    {
      offset := nextOffset;
      var rest := openWindows.Keys;
      var first := true;
      while rest != {}
        invariant rest <= openWindows.Keys
        invariant first ==> offset == nextOffset && rest == openWindows.Keys
        invariant !first ==> exists w :: w in openWindows && openWindows[w].minOffset == offset
        invariant !first ==> forall w :: w in openWindows && w !in rest ==> offset <= openWindows[w].minOffset
        decreases rest
      {
        var w := TakeOne(rest);
        if first || openWindows[w].minOffset < offset {
          offset := openWindows[w].minOffset;
        }
        first := false;
        rest := rest - {w};
      }
    }
  }
}
