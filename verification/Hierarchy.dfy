/** The four-level dimension hierarchy: crates/common/src/hierarchy.rs. */
module Hierarchy {
  import opened Collections
  import opened Windows

  type EventId = nat
  type User = string

  datatype EventKind = KindEdit | KindNew | KindLog | KindCategorize

  datatype Event = Event(id: EventId, user: User, ts: Time, family: string, wiki: string, namespace: int,
                         kind: EventKind, isBot: bool)

  const ROLLUP_STR: string := "*"
  const ROLLUP_NAMESPACE: int := -1

  const LEVEL_GLOBAL: int := 0
  const LEVEL_FAMILY: int := 1
  const LEVEL_WIKI: int := 2
  const LEVEL_NAMESPACE: int := 3

  datatype CellKey = CellKey(level: int, family: string, wiki: string, namespace: int)

  const GLOBAL: CellKey := CellKey(LEVEL_GLOBAL, ROLLUP_STR, ROLLUP_STR, ROLLUP_NAMESPACE)

  /** One cell per level, coarsest first. */
  function CellsForEvent(e: Event): (cells: seq<CellKey>)
    ensures |cells| == 4
    ensures forall i :: 0 <= i < 4 ==> cells[i].level == i
  {
    [GLOBAL,
     CellKey(LEVEL_FAMILY, e.family, ROLLUP_STR, ROLLUP_NAMESPACE),
     CellKey(LEVEL_WIKI, e.family, e.wiki, ROLLUP_NAMESPACE),
     CellKey(LEVEL_NAMESPACE, e.family, e.wiki, e.namespace)]
  }

  function Parent(c: CellKey): Option<CellKey> {
    if c.level == LEVEL_FAMILY then Some(GLOBAL)
    else if c.level == LEVEL_WIKI then Some(CellKey(LEVEL_FAMILY, c.family, ROLLUP_STR, ROLLUP_NAMESPACE))
    else if c.level == LEVEL_NAMESPACE then Some(CellKey(LEVEL_WIKI, c.family, c.wiki, ROLLUP_NAMESPACE))
    else None
  }

  /** The event is counted in this cell. */
  predicate Contributes(e: Event, c: CellKey) {
    c in CellsForEvent(e)
  }

  /** An event is in a cell above the leaves exactly when it is in one, and
      only one, of that cell's children. */
  lemma {:induction false} OneChildPerEvent(e: Event, parent: CellKey)
    requires parent.level < LEVEL_NAMESPACE
    ensures Contributes(e, parent) <==> exists c :: Contributes(e, c) && Parent(c) == Some(parent)
    ensures forall c, d :: Contributes(e, c) && Contributes(e, d) && Parent(c) == Some(parent) == Parent(d) ==> c == d
  {
    var cells := CellsForEvent(e);
    assert forall i :: 1 <= i < 4 ==> Parent(cells[i]) == Some(cells[i - 1]);
    if Contributes(e, parent) {
      var i :| 0 <= i < 4 && cells[i] == parent;
      assert Contributes(e, cells[i + 1]) && Parent(cells[i + 1]) == Some(parent);
    }
  }
}
