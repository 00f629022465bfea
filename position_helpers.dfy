/** Sibling positions of cards within a list and of lists within a board
    (backend/src/utils/position_helpers.py). One generic table type serves both
    models; the parent foreign key (`list_id` or `board_id`) is the row's `parent`. */
module PositionHelpers {
  import opened Wrappers

  /** One stored card or list: its parent foreign key, its integer `position`
      among that parent's children, and the model's other columns. */
  datatype Row<T> = Row(parent: int, position: int, data: T)

  /** A table keyed by primary key. */
  type Rows<T> = map<int, Row<T>>

  /** What the helpers keep even where a parent is not dense: no position is
      negative, and no two children of one parent share a position. */
  predicate WellPlaced<T>(rows: Rows<T>)
  {
    && (forall id :: id in rows ==> rows[id].position >= 0)
    && (forall a, b :: a in rows && b in rows && a != b && rows[a].parent == rows[b].parent ==>
          rows[a].position != rows[b].position)
  }

  // ---------------------------------------------------------------------------
  // The queries the helpers run, as filters over the table
  // ---------------------------------------------------------------------------

  /** `filter_by(parent_field=parent)`: the ids of a parent's children. */
  function Siblings<T>(rows: Rows<T>, parent: int): set<int>
  {
    set id | id in rows && rows[id].parent == parent
  }

  /** The positions held by a parent's children. */
  function Positions<T>(rows: Rows<T>, parent: int): set<int>
  {
    set id | id in rows && rows[id].parent == parent :: rows[id].position
  }

  /** Children of `parent` with `position >= p` (the insert query). */
  function AtOrAfter<T>(rows: Rows<T>, parent: int, p: int): set<int>
  {
    set id | id in rows && rows[id].parent == parent && rows[id].position >= p
  }

  /** Children of `parent` with `position > p` (the delete query). */
  function After<T>(rows: Rows<T>, parent: int, p: int): set<int>
  {
    set id | id in rows && rows[id].parent == parent && rows[id].position > p
  }

  /** Children of `parent` other than `item` with `lo <= position <= hi`
      (the two same-parent move queries, with their strict bounds made inclusive). */
  function Window<T>(rows: Rows<T>, parent: int, item: int, lo: int, hi: int): set<int>
  {
    set id | id in rows && rows[id].parent == parent && id != item && lo <= rows[id].position <= hi
  }

  // ---------------------------------------------------------------------------
  // What each helper does to the table
  // ---------------------------------------------------------------------------

  /** Every row in `ids` moved by `delta`; every other row as it was. */
  function Shift<T>(rows: Rows<T>, ids: set<int>, delta: int): Rows<T>
  {
    map id | id in rows :: if id in ids then rows[id].(position := rows[id].position + delta) else rows[id]
  }

  /** The table after `adjust_positions_on_insert(parent, p)`. */
  function Inserted<T>(rows: Rows<T>, parent: int, p: int): Rows<T>
  {
    Shift(rows, AtOrAfter(rows, parent, p), 1)
  }

  /** The table after `compact_positions_on_delete(parent, d)`. */
  function Compacted<T>(rows: Rows<T>, parent: int, d: int): Rows<T>
  {
    Shift(rows, After(rows, parent, d), -1)
  }

  /** The table after `reorder_on_move(item, oldParent, oldPos, newParent, newPos)`:
      within one parent, the half-open range `(oldPos, newPos]` moves down or
      `[newPos, oldPos)` moves up, the item itself excluded by id; across parents,
      compaction of the old parent and then an insert shift in the new one. */
  function Reordered<T>(rows: Rows<T>, item: int, oldParent: int, oldPos: int, newParent: int, newPos: int): Rows<T>
  {
    if oldParent == newParent then
      if newPos > oldPos then Shift(rows, Window(rows, newParent, item, oldPos + 1, newPos), -1)
      else Shift(rows, Window(rows, newParent, item, newPos, oldPos - 1), 1)
    else
      Inserted(Compacted(rows, oldParent, oldPos), newParent, newPos)
  }

  /** A move as the handlers perform it: reorder the siblings from the item's stored
      parent and position, then overwrite the item's own parent and position. */
  function Relocated<T>(rows: Rows<T>, item: int, newParent: int, newPos: int): Rows<T>
    requires item in rows
  {
    Reordered(rows, item, rows[item].parent, rows[item].position, newParent, newPos)
      [item := rows[item].(parent := newParent, position := newPos)]
  }

  // ---------------------------------------------------------------------------
  // get_next_position and validate_position
  // ---------------------------------------------------------------------------

  /** A non-empty set has an element to pick. */
  lemma Inhabited(s: set<int>)
    requires s != {}
    ensures exists y :: y in s
  {
    if forall y :: y !in s {
      assert false;
    }
  }

  lemma {:induction false} HasMaximum(s: set<int>)
    requires s != {}
    ensures exists m :: m in s && forall x :: x in s ==> x <= m
  {
    Inhabited(s);
    var y :| y in s;
    if s != {y} {
      HasMaximum(s - {y});
      var m :| m in s - {y} && forall x :: x in s - {y} ==> x <= m;
      var top := if y <= m then m else y;
      forall x | x in s ensures x <= top {
        if x != y {
          assert x in s - {y};
        }
      }
      assert top in s;
    } else {
      assert forall x :: x in s ==> x <= y;
    }
  }

  /** The largest element of a non-empty finite set of integers (SQL `max`). */
  function MaxOf(s: set<int>): (m: int)
    requires s != {}
    ensures m in s
    ensures forall x :: x in s ==> x <= m
  {
    HasMaximum(s);
    var m :| m in s && forall x :: x in s ==> x <= m; m
  }

  /** `db.func.max(model.position)` over a parent's children: `None` for a parent
      with no children, otherwise the largest position one of them holds. */
  function MaxPosition<T>(rows: Rows<T>, parent: int): (m: Option<int>)
    ensures m.None? <==> Siblings(rows, parent) == {}
    ensures m.Some? ==> exists id :: id in Siblings(rows, parent) && rows[id].position == m.value
    ensures m.Some? ==> forall id :: id in Siblings(rows, parent) ==> rows[id].position <= m.value
  {
    var ps := Positions(rows, parent);
    assert forall id :: id in Siblings(rows, parent) ==> rows[id].position in ps;
    if ps == {} then
      None
    else
      var m := MaxOf(ps);
      assert exists id :: id in Siblings(rows, parent) && rows[id].position == m;
      Some(m)
  }

  /** `get_next_position`: `(max_position or -1) + 1`. A maximum of `None` or of
      `0` is falsy in Python, so both give 0. */
  function NextPosition<T>(rows: Rows<T>, parent: int): (r: int)
    ensures MaxPosition(rows, parent).None? ==> r == 0
    ensures MaxPosition(rows, parent) == Some(0) ==> r == 0
    ensures MaxPosition(rows, parent).Some? && MaxPosition(rows, parent).value != 0 ==>
      r == MaxPosition(rows, parent).value + 1
    ensures r != 0 ==> forall id :: id in Siblings(rows, parent) ==> rows[id].position < r
  {
    var m := MaxPosition(rows, parent);
    (if m.None? || m.value == 0 then -1 else m.value) + 1
  }

  /** `validate_position`: an absent position appends, a negative one becomes 0,
      any other is kept as given (there is no upper bound). */
  function ValidatePosition<T>(rows: Rows<T>, parent: int, position: Option<int>): (r: int)
    ensures position.None? ==> r == NextPosition(rows, parent)
    ensures position.Some? ==> r >= 0
    ensures position.Some? && position.value < 0 ==> r == 0
    ensures position.Some? && position.value >= 0 ==> r == position.value
  {
    if position.None? then NextPosition(rows, parent)
    else if position.value < 0 then 0
    else position.value
  }

  /** The primary key the store gives a new row: one more than every key in use. */
  function FreshId(ids: set<int>): (r: int)
    ensures r !in ids
    ensures forall x :: x in ids ==> x < r
  {
    if ids == {} then 1 else MaxOf(ids) + 1
  }

  // ---------------------------------------------------------------------------
  // A table whose rows the helpers update in place
  // ---------------------------------------------------------------------------

  /** One ORM model's table (`Card` or `List`). */
  class Table<T> {
    var rows: Rows<T>

    constructor ()
      ensures rows == map[]
    {
      rows := map[];
    }

    /** The loop every helper runs over its query result:
        `for item in items: item.position += delta`. */
    method ShiftPositions(ids: set<int>, delta: int)
      requires ids <= rows.Keys
      modifies this
      ensures rows == Shift(old(rows), ids, delta)
    {
      ghost var start := rows;
      var todo := ids;
      while todo != {}
        invariant todo <= ids
        invariant rows.Keys == start.Keys
        invariant forall id :: id in rows ==>
          rows[id] == (if id in ids && id !in todo then start[id].(position := start[id].position + delta) else start[id])
        decreases todo
      {
        Inhabited(todo);
        var id :| id in todo;
        rows := rows[id := rows[id].(position := rows[id].position + delta)];
        todo := todo - {id};
      }
      assert rows.Keys == Shift(start, ids, delta).Keys;
      forall id | id in rows ensures rows[id] == Shift(start, ids, delta)[id] { }
    }

    /** `adjust_positions_on_insert`: every child of `parent` at or after `position`
        moves up one slot. */
    method AdjustPositionsOnInsert(parent: int, position: int)
      modifies this
      ensures rows == Inserted(old(rows), parent, position)
    {
      var toMove := AtOrAfter(rows, parent, position);
      ShiftPositions(toMove, 1);
    }

    /** `compact_positions_on_delete`: every child of `parent` after
        `deletedPosition` moves down one slot. */
    method CompactPositionsOnDelete(parent: int, deletedPosition: int)
      modifies this
      ensures rows == Compacted(old(rows), parent, deletedPosition)
    {
      var toMove := After(rows, parent, deletedPosition);
      ShiftPositions(toMove, -1);
    }

    /** `reorder_on_move`: shifts the siblings for a move of `item`; the item's own
        row is left for the caller to overwrite. */
    method ReorderOnMove(item: int, oldParent: int, oldPosition: int, newParent: int, newPosition: int)
      modifies this
      ensures rows == Reordered(old(rows), item, oldParent, oldPosition, newParent, newPosition)
    {
      if oldParent == newParent {
        if newPosition > oldPosition {
          var toMove := Window(rows, newParent, item, oldPosition + 1, newPosition);
          ShiftPositions(toMove, -1);
        } else {
          var toMove := Window(rows, newParent, item, newPosition, oldPosition - 1);
          ShiftPositions(toMove, 1);
        }
      } else {
        CompactPositionsOnDelete(oldParent, oldPosition);
        AdjustPositionsOnInsert(newParent, newPosition);
      }
    }

    /** What every move handler does: `reorder_on_move` from the item's stored
        parent and position, then the item's own parent and position columns set
        to the new ones. */
    method Relocate(item: int, newParent: int, newPosition: int)
      requires item in rows
      modifies this
      ensures rows == Relocated(old(rows), item, newParent, newPosition)
    {
      var row := rows[item];
      ReorderOnMove(item, row.parent, row.position, newParent, newPosition);
      rows := rows[item := row.(parent := newParent, position := newPosition)];
    }

    /** `db.session.add` of a new row: it receives a fresh primary key. */
    method Add(row: Row<T>) returns (id: int)
      modifies this
      ensures id !in old(rows)
      ensures rows == old(rows)[id := row]
    {
      id := FreshId(rows.Keys);
      rows := rows[id := row];
    }

    /** `db.session.delete` of one row. */
    method Delete(id: int)
      modifies this
      ensures rows == old(rows) - {id}
    {
      rows := rows - {id};
    }

    /** The `delete-orphan` cascade: every child of `parent` goes with it. */
    method DeleteChildren(parent: int)
      modifies this
      ensures rows.Keys == old(rows).Keys - Siblings(old(rows), parent)
      ensures forall id :: id in rows ==> rows[id] == old(rows)[id]
    {
      rows := map id | id in rows && rows[id].parent != parent :: rows[id];
    }
  }
}
