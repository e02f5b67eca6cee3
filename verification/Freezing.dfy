/** When the rows of a window can never change again, over all further runs of
    the aggregators, and what the completeness gate says about it. */
module Freezing {
  import opened Windows
  import opened Hierarchy
  import opened Sketches
  import opened Aggregates
  import opened Storage
  import opened Protocol
  import opened Durability
  import opened Handovers
  import opened Queries
  import opened Handlers

  ghost predicate AllExtend(earlier: seq<Table>, later: seq<Table>) {
    |earlier| == |later| && forall p :: 0 <= p < |earlier| ==> Extends(earlier[p], later[p])
  }

  lemma {:induction false} CoveredRowsFrozen(earlier: Table, later: Table, w: Time)
    requires Extends(earlier, later) && Covered(earlier, WindowEnd(w))
    ensures RowsAt(later, w) == RowsAt(earlier, w)
  {
  }

  lemma {:induction false} CoveredViewFrozen(earlier: seq<Table>, later: seq<Table>, w: Time)
    requires AllExtend(earlier, later) && AllCovered(earlier, w)
    ensures ViewAt(later, w) == ViewAt(earlier, w) && AllCovered(later, w)
  {
    hide RowsAt, Extends;
    forall p | 0 <= p < |earlier|
      ensures RowsAt(later[p], w) == RowsAt(earlier[p], w) && Covered(later[p], WindowEnd(w))
    {
      CoveredRowsFrozen(earlier[p], later[p], w);
      ExtendsCovers(earlier[p], later[p], WindowEnd(w));
    }
  }

  lemma {:induction false} ExtendsCovers(earlier: Table, later: Table, t: Time)
    requires Extends(earlier, later) && Covered(earlier, t)
    ensures Covered(later, t)
  {
  }

  /** No run of the aggregators changes the rows of the window any more. */
  ghost predicate Frozen(hash: Hasher, parts: seq<Part>, w: Time) {
    forall runs, after :: PartsRun(hash, parts, runs, after) ==>
      ViewAt(TablesOf(after), w) == ViewAt(TablesOf(parts), w)
  }

  /** A partition has nothing more to store for the window. */
  ghost predicate Settled(part: Part, w: Time) {
    Covered(part.state.table, WindowEnd(w)) || forall i :: !InWindow(part.log, i, w)
  }

  lemma {:induction false} NoEventNoRows(hash: Hasher, part: Part, w: Time)
    requires Inv(part.log, hash, part.state) && forall i :: !InWindow(part.log, i, w)
    ensures RowsAt(part.state.table, w) == map[]
  {
    hide Inv, RowsAt, WindowStart;
    forall c
      ensures c !in RowsAt(part.state.table, w)
    {
      RowsMatchLog(hash, part, w, c);
      assert EntriesOf(part, w, c) == {};
    }
  }

  lemma {:induction false} SettledStays(hash: Hasher, before: Part, acts: seq<Action>, after: Part, w: Time)
    requires Inv(before.log, hash, before.state) && Settled(before, w)
    requires Runs(before.log, hash, before.state, acts)
    requires after == Part(before.log, Exec(before.log, hash, before.state, acts))
    ensures RowsAt(after.state.table, w) == RowsAt(before.state.table, w)
  {
    hide Inv, RowsAt, Runs, Exec, Extends, WindowStart;
    if Covered(before.state.table, WindowEnd(w)) {
      RunExtends(before.log, hash, before.state, acts);
      CoveredRowsFrozen(before.state.table, after.state.table, w);
    } else {
      RunInv(before.log, hash, before.state, acts);
      NoEventNoRows(hash, before, w);
      NoEventNoRows(hash, after, w);
    }
  }

  /** The partition that can still store the window does so; the others rest. */
  lemma {:induction false} UnsettledChanges(hash: Hasher, parts: seq<Part>, w: Time, p: nat)
      returns (runs: seq<seq<Action>>, after: seq<Part>)
    requires PartsSound(hash, parts) && p < |parts| && !Settled(parts[p], w)
    ensures PartsRun(hash, parts, runs, after)
    ensures ViewAt(TablesOf(after), w) != ViewAt(TablesOf(parts), w)
  {
    hide Inv, Runs, Exec, WindowStart, RowsAt;
    var part := parts[p];
    var i :| InWindow(part.log, i, w);
    var acts := CanStillStore(part.log, hash, part.state, i);
    runs := seq(|parts|, q => if q == p then acts else []);
    after := parts[p := Part(part.log, Exec(part.log, hash, part.state, acts))];
    forall q | 0 <= q < |parts|
      ensures Runs(parts[q].log, hash, parts[q].state, runs[q])
      ensures after[q] == Part(parts[q].log, Exec(parts[q].log, hash, parts[q].state, runs[q]))
    {
      StayPut(parts[q].log, hash, parts[q].state);
    }
    RowAppears(hash, part, after[p], w);
    assert ViewAt(TablesOf(after), w)[p] != ViewAt(TablesOf(parts), w)[p];
  }

  lemma {:induction false} StayPut(log: Log, hash: Hasher, s: State)
    ensures Runs(log, hash, s, []) && Exec(log, hash, s, []) == s
  {
  }

  lemma {:induction false} RowAppears(hash: Hasher, before: Part, after: Part, w: Time)
    requires Inv(before.log, hash, before.state) && !Covered(before.state.table, WindowEnd(w))
    requires RowKey(w, GLOBAL) in after.state.table.rows
    ensures RowsAt(after.state.table, w) != RowsAt(before.state.table, w)
  {
    hide MemSound, BatchSound, StoredHolds;
    assert RowKey(w, GLOBAL) !in before.state.table.rows;
    assert GLOBAL in RowsAt(after.state.table, w) && GLOBAL !in RowsAt(before.state.table, w);
  }

  /** A window's rows can never change again, whatever the aggregators do, if and
      only if every partition's stored watermark covers the window or its log
      has no event in it. */
  lemma {:induction false} FrozenIff(hash: Hasher, parts: seq<Part>, w: Time)
    requires PartsSound(hash, parts)
    ensures Frozen(hash, parts, w) <==> forall p :: 0 <= p < |parts| ==> Settled(parts[p], w)
  {
    hide Inv, Settled, RowsAt, Runs, Exec;
    if p :| 0 <= p < |parts| && !Settled(parts[p], w) {
      var runs, after := UnsettledChanges(hash, parts, w, p);
    } else {
      forall runs, after: seq<Part> | PartsRun(hash, parts, runs, after)
        ensures ViewAt(TablesOf(after), w) == ViewAt(TablesOf(parts), w)
      {
        forall p | 0 <= p < |parts|
          ensures RowsAt(after[p].state.table, w) == RowsAt(parts[p].state.table, w)
        {
          SettledStays(hash, parts[p], runs[p], after[p], w);
        }
      }
    }
  }

  /** What the gate leaves open: a window it admits is frozen if and only if no
      partition without a progress row has an event in it. */
  lemma {:induction false} GateFreezesIff(hash: Hasher, parts: seq<Part>, w: Time)
    requires PartsSound(hash, parts) && Complete(TablesOf(parts), w)
    ensures Frozen(hash, parts, w) <==>
            forall p :: 0 <= p < |parts| && parts[p].state.table.progress.None? ==>
              forall i :: !InWindow(parts[p].log, i, w)
  {
    hide Inv, Frozen, Complete, WindowStart, PartsSound;
    FrozenIff(hash, parts, w);
    GateMeans(TablesOf(parts), w);
    forall p | 0 <= p < |parts|
      ensures Settled(parts[p], w) <==>
              (parts[p].state.table.progress.None? ==> forall i :: !InWindow(parts[p].log, i, w))
    {
      assert TablesOf(parts)[p] == parts[p].state.table;
    }
  }
}
