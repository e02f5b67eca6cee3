/** The load generator's ground truth (crates/loadgen/src/generator.rs) and the
    theorem `reconcile` checks at run time: the pipeline agrees with it. */
module Truth {
  import opened Collections
  import opened Windows
  import opened Hierarchy
  import opened Sketches
  import opened Aggregates
  import opened Storage
  import opened Protocol
  import opened Accounting
  import opened ZeroDrift
  import opened Queries

  datatype TruthEntry = TruthEntry(events: nat, users: set<User>)

  type TruthMap = map<RowKey, TruthEntry>

  function EntryOf(truth: TruthMap, key: RowKey): TruthEntry {
    if key in truth then truth[key] else TruthEntry(0, {})
  }

  function RecordCells(truth: TruthMap, w: Time, keys: seq<CellKey>, user: User): TruthMap
    decreases |keys|
  {
    if |keys| == 0 then truth
    else
      var key := RowKey(w, keys[0]);
      var entry := EntryOf(truth, key);
      RecordCells(truth[key := TruthEntry(entry.events + 1, entry.users + {user})], w, keys[1..], user)
  }

  /** `record_truth`, as a function of the map. */
  function Record(truth: TruthMap, e: Event): TruthMap {
    RecordCells(truth, WindowStart(e.ts), CellsForEvent(e), e.user)
  }

  /** The generator's map after recording a stream of logical events. */
  function TruthOf(stream: seq<Event>): TruthMap {
    if |stream| == 0 then map[] else Record(TruthOf(stream[..|stream| - 1]), stream[|stream| - 1])
  }

  class Generator {
    var truth: TruthMap

    constructor ()
      ensures truth == TruthOf([])
    {
      truth := map[];
    }

    method RecordTruth(e: Event)
      modifies this
      ensures truth == Record(old(truth), e)
    {
      var w, keys := WindowStart(e.ts), CellsForEvent(e);
      for i := 0 to |keys|
        invariant RecordCells(truth, w, keys[i..], e.user) == Record(old(truth), e)
      {
        assert keys[i..][1..] == keys[i + 1..];
        var entry := EntryOf(truth, RowKey(w, keys[i]));
        truth := truth[RowKey(w, keys[i]) := TruthEntry(entry.events + 1, entry.users + {e.user})];
      }
    }
  }

  // ---------- The truth map counts the stream ----------

  predicate Hits(e: Event, key: RowKey) {
    WindowStart(e.ts) == key.start && Contributes(e, key.cell)
  }

  function HitsBelow(stream: seq<Event>, n: nat, key: RowKey): set<int>
    requires n <= |stream|
  {
    set k | 0 <= k < n && Hits(stream[k], key)
  }

  function HitUsers(stream: seq<Event>, n: nat, key: RowKey): set<User>
    requires n <= |stream|
  {
    set k | k in HitsBelow(stream, n, key) :: stream[k].user
  }

  lemma {:induction false} RecordCellsAt(truth: TruthMap, w: Time, keys: seq<CellKey>, user: User, key: RowKey)
    requires forall i, j :: 0 <= i < j < |keys| ==> keys[i] != keys[j]
    ensures EntryOf(RecordCells(truth, w, keys, user), key) ==
            if key.start == w && key.cell in keys
            then TruthEntry(EntryOf(truth, key).events + 1, EntryOf(truth, key).users + {user})
            else EntryOf(truth, key)
    decreases |keys|
  {
    if |keys| > 0 {
      var first := RowKey(w, keys[0]);
      var entry := EntryOf(truth, first);
      assert forall c :: c in keys <==> c == keys[0] || c in keys[1..];
      assert keys[0] !in keys[1..];
      assert key == RowKey(key.start, key.cell);
      RecordCellsAt(truth[first := TruthEntry(entry.events + 1, entry.users + {user})], w, keys[1..], user, key);
    }
  }

  lemma {:induction false} RecordAt(truth: TruthMap, e: Event, key: RowKey)
    ensures EntryOf(Record(truth, e), key) ==
            if Hits(e, key) then TruthEntry(EntryOf(truth, key).events + 1, EntryOf(truth, key).users + {e.user})
            else EntryOf(truth, key)
  {
    hide WindowStart, CellsForEvent, RecordCells;
    RecordCellsAt(truth, WindowStart(e.ts), CellsForEvent(e), e.user, key);
  }

  /** The recorded entry is the number of logical events of the cell and window,
      and the set of their users. */
  lemma {:induction false} TruthCounts(stream: seq<Event>, n: nat, key: RowKey)
    requires n <= |stream|
    ensures EntryOf(TruthOf(stream[..n]), key) == TruthEntry(|HitsBelow(stream, n, key)|, HitUsers(stream, n, key))
  {
    hide Hits, Record;
    if n == 0 {
      assert HitsBelow(stream, 0, key) == {};
    } else {
      var m := n - 1;
      TruthCounts(stream, m, key);
      assert stream[..n][..m] == stream[..m];
      RecordAt(TruthOf(stream[..m]), stream[m], key);
      HitsGrow(stream, m, key);
    }
  }

  lemma {:induction false} HitsGrow(stream: seq<Event>, m: nat, key: RowKey)
    requires m < |stream|
    ensures !Hits(stream[m], key) ==>
              && HitsBelow(stream, m + 1, key) == HitsBelow(stream, m, key)
              && HitUsers(stream, m + 1, key) == HitUsers(stream, m, key)
    ensures Hits(stream[m], key) ==>
              && |HitsBelow(stream, m + 1, key)| == |HitsBelow(stream, m, key)| + 1
              && HitUsers(stream, m + 1, key) == HitUsers(stream, m, key) + {stream[m].user}
  {
    hide Hits;
    if Hits(stream[m], key) {
      assert HitsBelow(stream, m + 1, key) == HitsBelow(stream, m, key) + {m};
      assert m !in HitsBelow(stream, m, key);
    } else {
      assert HitsBelow(stream, m + 1, key) == HitsBelow(stream, m, key);
    }
  }

  // ---------- A log that carries the stream ----------

  ghost predicate UniqueIds(stream: seq<Event>) {
    forall k, l :: 0 <= k < l < |stream| ==> stream[k].id != stream[l].id
  }

  /** Partition `p`'s log holds exactly the logical events routed to it, each at
      least once, in any order, amid messages that do not decode. */
  ghost predicate Carries(log: Log, stream: seq<Event>, route: User -> nat, p: nat) {
    && (forall i :: IsEvent(log, i) ==> log[i].value in stream && route(log[i].value.user) == p)
    && (forall k :: 0 <= k < |stream| && route(stream[k].user) == p ==>
        exists i :: IsEvent(log, i) && log[i].value == stream[k])
  }

  /** The stream's events of a cell that are routed to partition `p`. */
  function HitsAt(stream: seq<Event>, key: RowKey, route: User -> nat, p: nat): set<int> {
    set k | 0 <= k < |stream| && Hits(stream[k], key) && route(stream[k].user) == p
  }

  function IdAt(log: Log, i: int): EventId {
    if IsEvent(log, i) then log[i].value.id else 0
  }

  function IdOf(stream: seq<Event>, k: int): EventId {
    if 0 <= k < |stream| then stream[k].id else 0
  }

  /** The counted log entry of a stream event. */
  lemma {:induction false} CountedOf(log: Log, stream: seq<Event>, route: User -> nat, p: nat, key: RowKey,
                                     k: int) returns (j: int)
    requires UniqueIds(stream) && Carries(log, stream, route, p) && k in HitsAt(stream, key, route, p)
    ensures j in CountedIn(log, |log|, key.start, key.cell) && log[j].value == stream[k]
    ensures IdAt(log, j) == IdOf(stream, k)
  {
    hide WindowStart, Contributes;
    var i :| IsEvent(log, i) && log[i].value == stream[k];
    j := FirstOccurrence(log, i, key.start);
    var l :| 0 <= l < |stream| && stream[l] == log[j].value;
    assert l == k;
  }

  lemma {:induction false} StreamOf(log: Log, stream: seq<Event>, route: User -> nat, p: nat, key: RowKey,
                                    i: int) returns (k: int)
    requires Carries(log, stream, route, p) && i in CountedIn(log, |log|, key.start, key.cell)
    ensures k in HitsAt(stream, key, route, p) && stream[k] == log[i].value
    ensures IdOf(stream, k) == IdAt(log, i)
  {
    hide WindowStart, Contributes;
    k :| 0 <= k < |stream| && stream[k] == log[i].value;
  }

  /** Dedup in the pipeline and uniqueness in the generator count the same. */
  lemma {:induction false} LogCountsStream(log: Log, stream: seq<Event>, route: User -> nat, p: nat, key: RowKey)
    requires UniqueIds(stream) && Carries(log, stream, route, p)
    ensures |CountedIn(log, |log|, key.start, key.cell)| == |HitsAt(stream, key, route, p)|
    ensures forall u :: u in UsersIn(log, |log|, key.start, key.cell) <==>
        exists k :: k in HitsAt(stream, key, route, p) && stream[k].user == u
  {
    hide CountedIn, HitsAt, Carries;
    LogCountsEvents(log, stream, route, p, key);
    LogCountsUsers(log, stream, route, p, key);
  }

  lemma {:induction false} IdsDistinct(log: Log, stream: seq<Event>, route: User -> nat, p: nat, key: RowKey)
    requires UniqueIds(stream)
    ensures var counted := CountedIn(log, |log|, key.start, key.cell);
            forall i, j :: i in counted && j in counted && IdAt(log, i) == IdAt(log, j) ==> i == j
    ensures var hits := HitsAt(stream, key, route, p);
            forall k, l :: k in hits && l in hits && IdOf(stream, k) == IdOf(stream, l) ==> k == l
  {
    hide WindowStart, Contributes;
  }

  lemma {:induction false} LogCountsEvents(log: Log, stream: seq<Event>, route: User -> nat, p: nat, key: RowKey)
    requires UniqueIds(stream) && Carries(log, stream, route, p)
    ensures |CountedIn(log, |log|, key.start, key.cell)| == |HitsAt(stream, key, route, p)|
  {
    hide CountedIn, HitsAt, Carries, UniqueIds;
    var counted, hits := CountedIn(log, |log|, key.start, key.cell), HitsAt(stream, key, route, p);
    var idAt, idOf := (i: int) => IdAt(log, i), (k: int) => IdOf(stream, k);
    IdsDistinct(log, stream, route, p, key);
    forall i | i in counted
      ensures exists k :: k in hits && idOf(k) == idAt(i)
    {
      var k := StreamOf(log, stream, route, p, key, i);
    }
    forall k | k in hits
      ensures exists i :: i in counted && idAt(i) == idOf(k)
    {
      var i := CountedOf(log, stream, route, p, key, k);
    }
    SameLabelsSameCard(counted, idAt, hits, idOf);
  }

  lemma {:induction false} LogCountsUsers(log: Log, stream: seq<Event>, route: User -> nat, p: nat, key: RowKey)
    requires UniqueIds(stream) && Carries(log, stream, route, p)
    ensures forall u :: u in UsersIn(log, |log|, key.start, key.cell) <==>
        exists k :: k in HitsAt(stream, key, route, p) && stream[k].user == u
  {
    hide WindowStart, Contributes, Carries, UniqueIds;
    forall i | i in CountedIn(log, |log|, key.start, key.cell)
      ensures exists k :: k in HitsAt(stream, key, route, p) && stream[k].user == log[i].value.user
    {
      var k := StreamOf(log, stream, route, p, key, i);
    }
    forall k | k in HitsAt(stream, key, route, p)
      ensures stream[k].user in UsersIn(log, |log|, key.start, key.cell)
    {
      var i := CountedOf(log, stream, route, p, key, k);
    }
  }

  // ---------- All partitions together ----------

  /** The stream's events and users of a cell routed to partition `p` or later. */
  function HitsFrom(stream: seq<Event>, key: RowKey, route: User -> nat, p: nat): set<int> {
    set k | 0 <= k < |stream| && Hits(stream[k], key) && route(stream[k].user) >= p
  }

  function UsersFrom(stream: seq<Event>, key: RowKey, route: User -> nat, p: nat): set<User> {
    set k | k in HitsFrom(stream, key, route, p) :: stream[k].user
  }

  /** A partition whose rows for the window hold its whole log. */
  ghost predicate HoldsWhole(hash: Hasher, part: Part, w: Time) {
    StoredHolds(part.log, hash, |part.log|, w, part.state.table.rows)
  }

  lemma {:induction false} PartCounts(hash: Hasher, part: Part, stream: seq<Event>, route: User -> nat, p: nat,
                                      key: RowKey)
    requires UniqueIds(stream) && Carries(part.log, stream, route, p) && HoldsWhole(hash, part, key.start)
    ensures var rows := RowsAt(part.state.table, key.start);
            && |HitsFrom(stream, key, route, p)| == EventsOf(rows, key.cell) + |HitsFrom(stream, key, route, p + 1)|
            && |UsersFrom(stream, key, route, p)| == UsersOf(rows, key.cell) + |UsersFrom(stream, key, route, p + 1)|
  {
    hide WindowStart, Contributes, CountedIn;
    LogCountsStream(part.log, stream, route, p, key);
    RowCounts(hash, part, key);
    var here, later := HitsAt(stream, key, route, p), HitsFrom(stream, key, route, p + 1);
    assert HitsFrom(stream, key, route, p) == here + later && here !! later;
    var people := UsersIn(part.log, |part.log|, key.start, key.cell);
    var others := UsersFrom(stream, key, route, p + 1);
    assert forall u :: u in people ==> route(u) == p;
    assert forall u :: u in others ==> route(u) > p;
    assert people !! others;
    assert UsersFrom(stream, key, route, p) == people + others by {
      UsersSplit(stream, key, route, p, people);
    }
  }

  lemma {:induction false} UsersSplit(stream: seq<Event>, key: RowKey, route: User -> nat, p: nat, people: set<User>)
    requires forall u :: u in people <==> exists k :: k in HitsAt(stream, key, route, p) && stream[k].user == u
    ensures UsersFrom(stream, key, route, p) == people + UsersFrom(stream, key, route, p + 1)
  {
  }

  lemma {:induction false} RowCounts(hash: Hasher, part: Part, key: RowKey)
    requires HoldsWhole(hash, part, key.start)
    ensures var rows := RowsAt(part.state.table, key.start);
            && EventsOf(rows, key.cell) == |CountedIn(part.log, |part.log|, key.start, key.cell)|
            && UsersOf(rows, key.cell) == |UsersIn(part.log, |part.log|, key.start, key.cell)|
  {
  }

  lemma {:induction false} SumsCountStream(hash: Hasher, parts: seq<Part>, stream: seq<Event>, route: User -> nat,
                                           p: nat, key: RowKey)
    requires p <= |parts| && UniqueIds(stream)
    requires forall k :: 0 <= k < |stream| ==> route(stream[k].user) < |parts|
    requires forall q :: 0 <= q < |parts| ==>
               Carries(parts[q].log, stream, route, q) && HoldsWhole(hash, parts[q], key.start)
    ensures var view := ViewAt(TablesOf(parts), key.start);
            && ColumnSum(EventsOf, view[p..], key.cell) == |HitsFrom(stream, key, route, p)|
            && ColumnSum(UsersOf, view[p..], key.cell) == |UsersFrom(stream, key, route, p)|
    decreases |parts| - p
  {
    hide WindowStart, Contributes, Carries, HoldsWhole, EventsOf, UsersOf;
    var view := ViewAt(TablesOf(parts), key.start);
    if p == |parts| {
      assert HitsFrom(stream, key, route, p) == {};
      assert UsersFrom(stream, key, route, p) == {};
    } else {
      SumsCountStream(hash, parts, stream, route, p + 1, key);
      PartCounts(hash, parts[p], stream, route, p, key);
      assert view[p..][1..] == view[p + 1..];
    }
  }

  /** Zero drift, end to end: route a stream of unique logical events over any
      number of partitions, with duplicates and reordering; run every partition
      with any crashes and replays; then, for every window all of them have
      flushed, the summed rows equal the generator's ground truth. */
  lemma {:induction false} ReconcileFindsNoDrift(hash: Hasher, parts: seq<Part>, runs: seq<seq<Action>>,
                                                 stream: seq<Event>, route: User -> nat, key: RowKey)
    requires UniqueIds(stream) && |runs| == |parts|
    requires forall k :: 0 <= k < |stream| ==> route(stream[k].user) < |parts|
    requires forall p :: 0 <= p < |parts| ==> Carries(parts[p].log, stream, route, p)
    requires forall p :: 0 <= p < |parts| ==> CleanRun(hash, parts[p], runs[p], key.start)
    ensures var cell := FetchCell(ViewAt(TablesOf(parts), key.start), key.cell);
            var entry := EntryOf(TruthOf(stream), key);
            cell.events == entry.events && cell.users == |entry.users|
  {
    hide CleanRun, Carries, HoldsWhole;
    forall p | 0 <= p < |parts|
      ensures HoldsWhole(hash, parts[p], key.start)
    {
      CleanRunHoldsWhole(hash, parts[p], runs[p], key.start);
    }
    var view := ViewAt(TablesOf(parts), key.start);
    SumsCountStream(hash, parts, stream, route, 0, key);
    assert view[0..] == view;
    TruthCounts(stream, |stream|, key);
    assert stream[..|stream|] == stream;
    assert HitsFrom(stream, key, route, 0) == HitsBelow(stream, |stream|, key);
  }

  /** The partition's state is the outcome of a run that meets the conditions of
      single-partition zero drift and whose stored watermark covers the window. */
  ghost predicate CleanRun(hash: Hasher, part: Part, acts: seq<Action>, w: Time) {
    && Orderly(part.log) && Runs(part.log, hash, INIT, acts) && Punctual(part.log, hash, INIT, acts)
    && !CommitsAfterFailure(part.log, hash, INIT, acts)
    && part.state == Exec(part.log, hash, INIT, acts)
    && Covered(part.state.table, WindowEnd(w))
  }

  lemma {:induction false} CleanRunHoldsWhole(hash: Hasher, part: Part, acts: seq<Action>, w: Time)
    requires CleanRun(hash, part, acts, w)
    ensures HoldsWhole(hash, part, w)
  {
    hide Runs, Exec, Punctual, CommitsAfterFailure;
    WholeLogStored(part.log, hash, acts, w);
  }
}
