/** One partition's slice of the tables `agg_cells` and `partition_progress`,
    and the transaction that writes them: crates/aggregator/src/db.rs. */
module Storage {
  import opened Collections
  import opened Windows
  import opened Hierarchy
  import opened Sketches
  import opened Aggregates
  import opened Partitions

  /** The primary key of `agg_cells` within one partition. */
  datatype RowKey = RowKey(start: Time, cell: CellKey)

  datatype Row = Row(events: nat, users: nat, hll: Option<seq<nat>>)

  datatype Progress = Progress(offset: nat, flushed: Time)

  datatype Table = Table(rows: map<RowKey, Row>, progress: Option<Progress>)

  /** The stored watermark has reached instant `t`. */
  predicate Covered(table: Table, t: Time) {
    table.progress.Some? && t <= table.progress.value.flushed
  }

  function RowOf(agg: CellAgg): Row {
    Row(agg.events, |agg.users|, if agg.hll.Some? then Some(ToBytes(agg.hll.value)) else None)
  }

  function NewRows(closed: map<Time, Window>): map<RowKey, Row> {
    map w, c | w in closed && c in closed[w].cells :: RowKey(w, c) := RowOf(closed[w].cells[c])
  }

  /** The upserts and the progress row, committed together. */
  function Flushed(table: Table, closed: map<Time, Window>, offset: nat, flushed: Time): Table {
    Table(table.rows + NewRows(closed), Some(Progress(offset, flushed)))
  }

  /** A row holds the counted entries of its cell below `n`: their number, their
      distinct users, and, if it has one, the sketch of exactly those users. */
  ghost predicate RowHolds(log: Log, hash: Hasher, n: nat, w: Time, c: CellKey, row: Row) {
    && row.events == |CountedIn(log, n, w, c)|
    && row.users == |UsersIn(log, n, w, c)|
    && Encodes(hash, row.hll, UsersIn(log, n, w, c))
  }

  /** A window's rows are exactly what the first `n` log entries put in it. */
  ghost predicate StoredHolds(log: Log, hash: Hasher, n: nat, w: Time, rows: map<RowKey, Row>) {
    && (forall c :: RowKey(w, c) in rows <==> CountedIn(log, n, w, c) != {})
    && (forall c :: RowKey(w, c) in rows ==> RowHolds(log, hash, n, w, c, rows[RowKey(w, c)]))
  }

  ghost predicate ModeUses(mode: HllMode, hash: Hasher) {
    mode.HllOn? ==> mode.hash == hash
  }

  /** With sketches on, a stored column is the 4097 bytes of the sketch of
      exactly these users: the precision, then the registers. With sketches off
      there is no column. */
  ghost predicate ColumnHolds(hash: Hasher, mode: HllMode, column: Option<seq<nat>>, users: set<User>) {
    match mode
    case HllOff => column.None?
    case HllOn(_) =>
      && column.Some? && |column.value| == 4097 && column.value[0] == 12
      && Summarises(hash, Sketch(12, column.value[1..]), users)
  }

  lemma {:induction false} RegisterCount()
    ensures Pow2(12) == 4096
  {
    assert Pow2(4) == 16;
    assert Pow2(8) == 256;
  }

  lemma {:induction false} ColumnOfRow(log: Log, hash: Hasher, n: nat, w: Time, c: CellKey, agg: CellAgg,
                                       mode: HllMode)
    requires CellHolds(log, n, w, c, agg, mode) && ModeUses(mode, hash)
    ensures ColumnHolds(hash, mode, RowOf(agg).hll, UsersIn(log, n, w, c))
  {
    hide CountedIn, UsersIn, Pow2;
    RegisterCount();
    if mode.HllOn? {
      assert ToBytes(agg.hll.value)[1..] == agg.hll.value.registers;
    }
  }

  lemma {:induction false} RowOfHolds(log: Log, hash: Hasher, n: nat, w: Time, c: CellKey, agg: CellAgg, mode: HllMode)
    requires CellHolds(log, n, w, c, agg, mode) && ModeUses(mode, hash)
    ensures RowHolds(log, hash, n, w, c, RowOf(agg))
  {
    hide CountedIn, UsersIn;
    if agg.hll.Some? {
      DecodeEncode(agg.hll.value);
    }
  }

  /** Writing a window that matches its reference stores the reference. */
  lemma {:induction false} WriteStores(log: Log, hash: Hasher, n: nat, w: Time, closed: map<Time, Window>,
                                       rows: map<RowKey, Row>, mode: HllMode)
    requires w in closed && WindowHolds(log, n, w, closed[w], mode) && ModeUses(mode, hash)
    requires forall c :: RowKey(w, c) !in rows
    ensures StoredHolds(log, hash, n, w, rows + NewRows(closed))
    ensures forall c :: c in closed[w].cells ==>
              && RowKey(w, c) in rows + NewRows(closed)
              && ColumnHolds(hash, mode, (rows + NewRows(closed))[RowKey(w, c)].hll, UsersIn(log, n, w, c))
  {
    hide CellHolds, RowHolds, CountedIn, ColumnHolds;
    forall c | c in closed[w].cells
      ensures RowHolds(log, hash, n, w, c, RowOf(closed[w].cells[c]))
      ensures ColumnHolds(hash, mode, RowOf(closed[w].cells[c]).hll, UsersIn(log, n, w, c))
    {
      RowOfHolds(log, hash, n, w, c, closed[w].cells[c], mode);
      ColumnOfRow(log, hash, n, w, c, closed[w].cells[c], mode);
    }
  }

  /** The database, written in place. A failed transaction writes nothing. */
  class Database {
    var tables: map<int, Table>

    constructor ()
      ensures tables == map[]
    {
      tables := map[];
    }

    function TableOf(partition: int): Table
      reads this
    {
      if partition in tables then tables[partition] else Table(map[], None)
    }

    method LoadProgress(partition: int) returns (progress: Option<Progress>)
      ensures progress == TableOf(partition).progress
    {
      progress := TableOf(partition).progress;
    }

    method FlushWindows(partition: int, closed: seq<(Time, Window)>, offset: nat, flushed: Time,
                        ghost windows: map<Time, Window>)
      requires Lists(closed, windows)
      modifies this
      ensures TableOf(partition) == Flushed(old(TableOf(partition)), windows, offset, flushed)
      ensures tables == old(tables)[partition := TableOf(partition)]
      ensures TableOf(partition).progress == Some(Progress(offset, flushed))
      ensures forall w, c :: w in windows && c in windows[w].cells ==>
                && RowKey(w, c) in TableOf(partition).rows
                && RowShows(TableOf(partition).rows[RowKey(w, c)], windows[w].cells[c])
      ensures forall key: RowKey :: !(key.start in windows && key.cell in windows[key.start].cells) ==>
                && (key in TableOf(partition).rows <==> key in old(TableOf(partition)).rows)
                && (key in TableOf(partition).rows ==>
                      TableOf(partition).rows[key] == old(TableOf(partition)).rows[key])
    {
      hide NewRows, RowShows;
      ListsToMap(closed, windows);
      UpsertAllAtOnce(TableOf(partition).rows, closed);
      var rows := UpsertWindows(TableOf(partition).rows, closed);
      tables := tables[partition := Table(rows, Some(Progress(offset, flushed)))];
      forall w, c | w in windows && c in windows[w].cells
        ensures RowKey(w, c) in rows && RowShows(rows[RowKey(w, c)], windows[w].cells[c])
      {
        NewRowsAt(windows, RowKey(w, c));
        RowOfShows(windows[w].cells[c]);
      }
      forall key: RowKey | !(key.start in windows && key.cell in windows[key.start].cells)
        ensures key !in NewRows(windows)
      {
        NewRowsAt(windows, key);
      }
    }
  }

  /** A row carries a cell's counts, and its sketch, if it has one, in bytes. */
  predicate RowShows(row: Row, agg: CellAgg) {
    && row.events == agg.events && row.users == |agg.users|
    && (row.hll.Some? <==> agg.hll.Some?)
    && (row.hll.Some? ==> FromBytes(row.hll.value) == agg.hll)
  }

  lemma {:induction false} RowOfShows(agg: CellAgg)
    ensures RowShows(RowOf(agg), agg)
  {
    if agg.hll.Some? {
      DecodeEncode(agg.hll.value);
    }
  }

  function CellRows(w: Time, cells: map<CellKey, CellAgg>): map<RowKey, Row> {
    map c | c in cells :: RowKey(w, c) := RowOf(cells[c])
  }

  lemma {:induction false} NewRowsAt(closed: map<Time, Window>, key: RowKey)
    ensures key in NewRows(closed) <==> key.start in closed && key.cell in closed[key.start].cells
    ensures key in NewRows(closed) ==> NewRows(closed)[key] == RowOf(closed[key.start].cells[key.cell])
  {
  }

  lemma {:induction false} NewRowsAdd(done: map<Time, Window>, w: Time, win: Window)
    requires w !in done
    ensures NewRows(done[w := win]) == NewRows(done) + CellRows(w, win.cells)
  {
    var sum := NewRows(done) + CellRows(w, win.cells);
    var longer := NewRows(done[w := win]);
    forall key
      ensures key in longer <==> key in sum
      ensures key in longer ==> longer[key] == sum[key]
    {
      hide RowOf, NewRows;
      assert key == RowKey(key.start, key.cell);
      NewRowsAt(done, key);
      NewRowsAt(done[w := win], key);
    }
    hide *;
    assert longer == sum;
  }

  /** The map a list of windows stands for. */
  function ToMap(closed: seq<(Time, Window)>): map<Time, Window> {
    if |closed| == 0 then map[] else ToMap(closed[1..])[closed[0].0 := closed[0].1]
  }

  predicate OldestFirst(closed: seq<(Time, Window)>) {
    forall i, j :: 0 <= i < j < |closed| ==> closed[i].0 < closed[j].0
  }

  lemma {:induction false} ToMapAt(closed: seq<(Time, Window)>, w: Time)
    requires OldestFirst(closed)
    ensures w in ToMap(closed) <==> exists j :: 0 <= j < |closed| && closed[j].0 == w
    ensures forall j :: 0 <= j < |closed| && closed[j].0 == w ==> ToMap(closed)[w] == closed[j].1
  {
    if |closed| > 0 {
      var rest := closed[1..];
      assert forall j :: 1 <= j < |closed| ==> closed[j] == rest[j - 1];
      ToMapAt(rest, w);
      if w in ToMap(rest) {
        var j :| 0 <= j < |rest| && rest[j].0 == w;
        assert closed[j + 1].0 == w;
      }
    }
  }

  lemma {:induction false} ListsToMap(closed: seq<(Time, Window)>, windows: map<Time, Window>)
    requires Lists(closed, windows)
    ensures ToMap(closed) == windows
  {
    hide ToMap;
    var made := ToMap(closed);
    forall w
      ensures w in made <==> w in windows
      ensures w in made ==> made[w] == windows[w]
    {
      ToMapAt(closed, w);
    }
    assert made.Keys == windows.Keys;
  }

  /** The upserts of a list of windows, one after the other. */
  function UpsertAll(rows: map<RowKey, Row>, closed: seq<(Time, Window)>): map<RowKey, Row>
    decreases |closed|
  {
    if |closed| == 0 then rows else UpsertAll(rows + CellRows(closed[0].0, closed[0].1.cells), closed[1..])
  }

  /** Distinct windows write distinct rows, so their order does not show. */
  lemma {:induction false} UpsertAllAtOnce(rows: map<RowKey, Row>, closed: seq<(Time, Window)>)
    requires OldestFirst(closed)
    ensures UpsertAll(rows, closed) == rows + NewRows(ToMap(closed))
    decreases |closed|
  {
    if |closed| == 0 {
      assert NewRows(map[]) == map[];
    } else {
      var w, win, rest := closed[0].0, closed[0].1, closed[1..];
      UpsertAllAtOnce(rows + CellRows(w, win.cells), rest);
      assert w !in ToMap(rest) by { ToMapAt(rest, w); }
      RowsCommute(rows, ToMap(rest), w, win);
    }
  }

  lemma {:induction false} RowsCommute(rows: map<RowKey, Row>, windows: map<Time, Window>, w: Time, win: Window)
    requires w !in windows
    ensures rows + CellRows(w, win.cells) + NewRows(windows) == rows + NewRows(windows[w := win])
  {
    hide RowOf, NewRows;
    NewRowsAdd(windows, w, win);
    var first, others := CellRows(w, win.cells), NewRows(windows);
    forall key | key in first
      ensures key !in others
    {
      NewRowsAt(windows, key);
    }
    hide *;
    assert rows + first + others == rows + (others + first);
  }

  method UpsertWindows(rows: map<RowKey, Row>, closed: seq<(Time, Window)>) returns (r: map<RowKey, Row>)
    ensures r == UpsertAll(rows, closed)
  {
    r := rows;
    for i := 0 to |closed|
      invariant UpsertAll(r, closed[i..]) == UpsertAll(rows, closed)
    {
      assert closed[i..][1..] == closed[i + 1..];
      r := UpsertCells(r, closed[i].0, closed[i].1.cells);
    }
  }

  lemma {:induction false} CellRowsAdd(rows: map<RowKey, Row>, w: Time, done: map<CellKey, CellAgg>,
                                       c: CellKey, agg: CellAgg)
    ensures (rows + CellRows(w, done))[RowKey(w, c) := RowOf(agg)] == rows + CellRows(w, done[c := agg])
  {
  }

  /** The cells of a map other than some. */
  function Except(cells: map<CellKey, CellAgg>, rest: set<CellKey>): map<CellKey, CellAgg> {
    map c | c in cells && c !in rest :: cells[c]
  }

  lemma {:induction false} CellRowsDone(rows: map<RowKey, Row>, w: Time, cells: map<CellKey, CellAgg>,
                                        rest: set<CellKey>, c: CellKey)
    requires c in rest && rest <= cells.Keys
    ensures (rows + CellRows(w, Except(cells, rest)))[RowKey(w, c) := RowOf(cells[c])]
         == rows + CellRows(w, Except(cells, rest - {c}))
  {
    hide CellRows;
    CellRowsAdd(rows, w, Except(cells, rest), c, cells[c]);
    assert Except(cells, rest - {c}) == Except(cells, rest)[c := cells[c]];
  }

  lemma {:induction false} CellRowsEnds(w: Time, cells: map<CellKey, CellAgg>)
    ensures CellRows(w, Except(cells, cells.Keys)) == map[]
    ensures Except(cells, {}) == cells
  {
  }

  /** One window's cells, upserted in whatever order the map yields them. */
  method UpsertCells(rows: map<RowKey, Row>, start: Time, cells: map<CellKey, CellAgg>) returns (r: map<RowKey, Row>)
    ensures r == rows + CellRows(start, cells)
  {
    r := rows;
    var rest := cells.Keys;
    CellRowsEnds(start, cells);
    while rest != {}
      invariant rest <= cells.Keys && r == rows + CellRows(start, Except(cells, rest))
      decreases rest
    {
      var c := TakeOne(rest);
      CellRowsDone(rows, start, cells, rest, c);
      r := r[RowKey(start, c) := RowOf(cells[c])];
      rest := rest - {c};
    }
  }
}
