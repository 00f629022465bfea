/** Density (a parent's N children hold exactly the positions 0..N-1) and what
    each helper of PositionHelpers does to it. */
module Density {
  import opened Wrappers
  import opened PositionHelpers

  /** The children's positions lie in 0..N-1 and no two of them coincide. */
  predicate Dense<T>(rows: Rows<T>, parent: int)
  {
    && (forall id :: id in Siblings(rows, parent) ==> 0 <= rows[id].position < |Siblings(rows, parent)|)
    && (forall a, b :: a in Siblings(rows, parent) && b in Siblings(rows, parent) && a != b ==>
          rows[a].position != rows[b].position)
  }

  /** Rows `ids` keep their relative display order from `before` to `after`. */
  predicate SameOrder<T>(before: Rows<T>, after: Rows<T>, ids: set<int>)
    requires ids <= before.Keys && ids <= after.Keys
  {
    forall a, b :: a in ids && b in ids ==>
      (before[a].position < before[b].position <==> after[a].position < after[b].position)
  }

  /** The slots 0..n-1. */
  function Range(n: nat): set<int>
  {
    if n == 0 then {} else Range(n - 1) + {n - 1}
  }

  lemma {:induction false} RangeFacts(n: nat)
    ensures |Range(n)| == n
    ensures forall i :: i in Range(n) <==> 0 <= i < n
  {
    if n > 0 {
      RangeFacts(n - 1);
    }
  }

  /** Pigeonhole: rows with pairwise distinct positions, all drawn from `slots`,
      are no more numerous than `slots`. */
  lemma {:induction false} InjectionBound<T>(rows: Rows<T>, ids: set<int>, slots: set<int>)
    requires ids <= rows.Keys
    requires forall id :: id in ids ==> rows[id].position in slots
    requires forall a, b :: a in ids && b in ids && a != b ==> rows[a].position != rows[b].position
    ensures |ids| <= |slots|
    decreases ids
  {
    if ids != {} {
      Inhabited(ids);
      var x :| x in ids;
      InjectionBound(rows, ids - {x}, slots - {rows[x].position});
    }
  }

  /** A dense parent holds every slot 0..N-1, each exactly once. */
  lemma EverySlotHeld<T>(rows: Rows<T>, parent: int, k: int)
    requires Dense(rows, parent)
    requires 0 <= k < |Siblings(rows, parent)|
    ensures exists id :: id in Siblings(rows, parent) && rows[id].position == k
  {
    var sib := Siblings(rows, parent);
    RangeFacts(|sib|);
    assert |Range(|sib|) - {k}| == |sib| - 1;
    if forall id :: id in sib ==> rows[id].position != k {
      InjectionBound(rows, sib, Range(|sib|) - {k});
      assert false;
    }
  }

  // ---------------------------------------------------------------------------
  // get_next_position and validate_position on a dense parent
  // ---------------------------------------------------------------------------

  /** On a dense parent with N children the append slot is N, except that a parent
      whose only child sits at 0 also gets 0, because a maximum of 0 is falsy. */
  lemma NextPositionOnDense<T>(rows: Rows<T>, parent: int)
    requires Dense(rows, parent)
    ensures |Siblings(rows, parent)| != 1 ==> NextPosition(rows, parent) == |Siblings(rows, parent)|
    ensures |Siblings(rows, parent)| == 1 ==> NextPosition(rows, parent) == 0
  {
    var n := |Siblings(rows, parent)|;
    if n > 0 {
      EverySlotHeld(rows, parent, n - 1);
      var m := MaxPosition(rows, parent);
      assert m.value == n - 1;
    }
  }

  /** The falsy-zero quirk: appending to a parent whose only child is at 0 resolves
      to 0 again, so the insert shift pushes the old child to 1 and the "appended"
      item lands in front of it. */
  lemma AppendToSingletonLandsFirst<T>(rows: Rows<T>, parent: int, only: int)
    requires only in rows && rows[only].parent == parent && rows[only].position == 0
    requires Siblings(rows, parent) == {only}
    ensures ValidatePosition(rows, parent, None) == 0
    ensures Inserted(rows, parent, ValidatePosition(rows, parent, None))[only].position == 1
  {
    var m := MaxPosition(rows, parent);
    assert m.value == 0;
  }

  // ---------------------------------------------------------------------------
  // Density under insert, delete and move
  // ---------------------------------------------------------------------------

  /** Insert shift at p (0 <= p <= N), then the new row stored at p: the parent
      holds 0..N, with every former child keeping its relative order. */
  lemma InsertKeepsDensity<T>(rows: Rows<T>, parent: int, p: int, newId: int, data: T)
    requires Dense(rows, parent)
    requires 0 <= p <= |Siblings(rows, parent)|
    requires newId !in rows
    ensures var after := Inserted(rows, parent, p)[newId := Row(parent, p, data)];
      && Siblings(after, parent) == Siblings(rows, parent) + {newId}
      && |Siblings(after, parent)| == |Siblings(rows, parent)| + 1
      && Dense(after, parent)
      && SameOrder(rows, after, Siblings(rows, parent))
  {
    var after := Inserted(rows, parent, p)[newId := Row(parent, p, data)];
    var sib := Siblings(rows, parent);
    assert Siblings(after, parent) == sib + {newId};
  }

  /** Inserting past the end (p > N, which validate_position lets through) leaves
      the parent non-dense, because validate_position has no upper bound. */
  lemma InsertPastEndLeavesGap<T>(rows: Rows<T>, parent: int, p: int, newId: int, data: T)
    requires Dense(rows, parent)
    requires p > |Siblings(rows, parent)|
    requires newId !in rows
    ensures ValidatePosition(rows, parent, Some(p)) == p
    ensures !Dense(Inserted(rows, parent, p)[newId := Row(parent, p, data)], parent)
  {
    var after := Inserted(rows, parent, p)[newId := Row(parent, p, data)];
    assert Siblings(after, parent) == Siblings(rows, parent) + {newId};
    assert newId in Siblings(after, parent);
  }

  /** Deleting a child and compacting behind it: the parent holds 0..N-2, with the
      survivors keeping their relative order. */
  lemma DeleteKeepsDensity<T>(rows: Rows<T>, item: int)
    requires item in rows
    requires Dense(rows, rows[item].parent)
    ensures var parent := rows[item].parent;
      var after := Compacted(rows - {item}, parent, rows[item].position);
      && Siblings(after, parent) == Siblings(rows, parent) - {item}
      && |Siblings(after, parent)| == |Siblings(rows, parent)| - 1
      && Dense(after, parent)
      && SameOrder(rows, after, Siblings(rows, parent) - {item})
  {
    var parent := rows[item].parent;
    var after := Compacted(rows - {item}, parent, rows[item].position);
    assert Siblings(after, parent) == Siblings(rows, parent) - {item};
  }

  /** Where a same-parent move from slot a to slot b sends a sibling at slot p. */
  function MovedWithin(p: int, a: int, b: int): int
  {
    if a < p <= b then p - 1 else if b <= p < a then p + 1 else p
  }

  /** Away from the vacated slot a, the mapping keeps order, stays in 0..n-1 and
      never lands on the target slot b. */
  lemma MovedWithinFacts(p: int, q: int, a: int, b: int, n: int)
    requires 0 <= a < n && 0 <= b < n
    requires 0 <= p < n && 0 <= q < n && p != a && q != a
    ensures 0 <= MovedWithin(p, a, b) < n
    ensures MovedWithin(p, a, b) != b
    ensures p < q <==> MovedWithin(p, a, b) < MovedWithin(q, a, b)
  {
  }

  /** The positions a same-parent move leaves behind. */
  lemma MoveWithinPositions<T>(rows: Rows<T>, item: int, b: int)
    requires item in rows
    ensures var parent := rows[item].parent;
      var after := Relocated(rows, item, parent, b);
      && Siblings(after, parent) == Siblings(rows, parent)
      && after[item].position == b
      && forall x :: x in Siblings(rows, parent) && x != item ==>
           after[x].position == MovedWithin(rows[x].position, rows[item].position, b)
  {
    var parent := rows[item].parent;
    var after := Relocated(rows, item, parent, b);
    assert Siblings(after, parent) == Siblings(rows, parent);
  }

  /** A same-parent move to slot b (0 <= b < N), followed by storing the item at b:
      the parent still holds 0..N-1, the item is at b, and every other child keeps
      its relative order. */
  lemma MoveWithinKeepsDensity<T>(rows: Rows<T>, item: int, b: int)
    requires item in rows
    requires Dense(rows, rows[item].parent)
    requires 0 <= b < |Siblings(rows, rows[item].parent)|
    ensures var parent := rows[item].parent;
      var after := Relocated(rows, item, parent, b);
      && Siblings(after, parent) == Siblings(rows, parent)
      && Dense(after, parent)
      && after[item].position == b
      && SameOrder(rows, after, Siblings(rows, parent) - {item})
  {
    var parent := rows[item].parent;
    var a := rows[item].position;
    var after := Relocated(rows, item, parent, b);
    var sib := Siblings(rows, parent);
    var n := |sib|;
    MoveWithinPositions(rows, item, b);
    forall x, y | x in sib && y in sib && x != item && y != item
      ensures 0 <= after[x].position < n && after[x].position != b
      ensures rows[x].position < rows[y].position <==> after[x].position < after[y].position
    {
      MovedWithinFacts(rows[x].position, rows[y].position, a, b, n);
    }
  }

  /** A move to slot b (0 <= b <= M) of another parent: the old parent holds 0..N-2,
      the new one 0..M with the moved item at b, and both keep their other
      children's relative order. */
  lemma MoveAcrossKeepsDensity<T>(rows: Rows<T>, item: int, target: int, b: int)
    requires item in rows
    requires target != rows[item].parent
    requires Dense(rows, rows[item].parent)
    requires Dense(rows, target)
    requires 0 <= b <= |Siblings(rows, target)|
    ensures var source := rows[item].parent;
      var after := Relocated(rows, item, target, b);
      && Siblings(after, source) == Siblings(rows, source) - {item}
      && Siblings(after, target) == Siblings(rows, target) + {item}
      && Dense(after, source)
      && Dense(after, target)
      && after[item].position == b
      && SameOrder(rows, after, Siblings(rows, source) - {item})
      && SameOrder(rows, after, Siblings(rows, target))
  {
    var source := rows[item].parent;
    var a := rows[item].position;
    var after := Relocated(rows, item, target, b);
    // The move is a delete from the source followed by an insert into the target.
    var gone := Compacted(rows - {item}, source, a);
    DeleteKeepsDensity(rows, item);
    assert Siblings(gone, target) == Siblings(rows, target);
    DenseTransfers(rows, gone, target);
    InsertKeepsDensity(gone, target, b, item, rows[item].data);
    CrossMoveIsDeleteThenInsert(rows, item, target, b);
    assert Siblings(after, source) == Siblings(gone, source);
    DenseTransfers(gone, after, source);
  }

  /** A cross-parent move is the delete of the item from its parent (with
      compaction) followed by its insert into the target (with the insert shift). */
  lemma CrossMoveIsDeleteThenInsert<T>(rows: Rows<T>, item: int, target: int, b: int)
    requires item in rows
    requires target != rows[item].parent
    ensures var gone := Compacted(rows - {item}, rows[item].parent, rows[item].position);
      Relocated(rows, item, target, b) == Inserted(gone, target, b)[item := Row(target, b, rows[item].data)]
  {
    var source, a := rows[item].parent, rows[item].position;
    assert Compacted(rows, source, a) - {item} == Compacted(rows - {item}, source, a);
  }

  /** Two tables that give a parent the same children at the same positions agree
      on its density. */
  lemma DenseTransfers<T>(r1: Rows<T>, r2: Rows<T>, parent: int)
    requires Siblings(r1, parent) == Siblings(r2, parent)
    requires forall id :: id in Siblings(r1, parent) ==> r1[id].position == r2[id].position
    requires Dense(r1, parent)
    ensures Dense(r2, parent)
  {
  }

  /** Moving an item to the end of its own parent by naming only the parent: the
      append slot counts the item itself, so the item lands at N and slot N-1 is
      left empty. */
  lemma MoveToOwnParentEndLeavesGap<T>(rows: Rows<T>, item: int)
    requires item in rows
    requires Dense(rows, rows[item].parent)
    requires |Siblings(rows, rows[item].parent)| >= 2
    ensures var parent := rows[item].parent;
      && ValidatePosition(rows, parent, None) == |Siblings(rows, parent)|
      && !Dense(Relocated(rows, item, parent, ValidatePosition(rows, parent, None)), parent)
  {
    var parent := rows[item].parent;
    NextPositionOnDense(rows, parent);
    var n := |Siblings(rows, parent)|;
    var after := Relocated(rows, item, parent, n);
    assert Siblings(after, parent) == Siblings(rows, parent);
    assert item in Siblings(after, parent);
  }

  // ---------------------------------------------------------------------------
  // Frame properties of reorder_on_move
  // ---------------------------------------------------------------------------

  /** reorder_on_move never touches the moved item's own row, nor any row whose
      parent is neither the old nor the new parent. */
  lemma ReorderedFrame<T>(rows: Rows<T>, item: int, newParent: int, newPos: int)
    requires item in rows
    ensures var r := Reordered(rows, item, rows[item].parent, rows[item].position, newParent, newPos);
      && r.Keys == rows.Keys
      && r[item] == rows[item]
      && forall id :: id in rows && rows[id].parent != rows[item].parent && rows[id].parent != newParent ==> r[id] == rows[id]
  {
  }

  /** The two steps of a cross-parent move touch disjoint rows, so their order is
      immaterial. */
  lemma CrossMoveStepsCommute<T>(rows: Rows<T>, source: int, d: int, target: int, p: int)
    requires source != target
    ensures Inserted(Compacted(rows, source, d), target, p) == Compacted(Inserted(rows, target, p), source, d)
  {
  }

  /** The insert shift is not idempotent: applying it twice moves the shifted rows
      by two, so callers must shift exactly once per insert. */
  lemma InsertTwiceShiftsTwice<T>(rows: Rows<T>, parent: int, p: int, id: int)
    requires id in AtOrAfter(rows, parent, p)
    ensures Inserted(Inserted(rows, parent, p), parent, p)[id].position == rows[id].position + 2
  {
  }

  // ---------------------------------------------------------------------------
  // Non-negative, distinct positions, dense or not
  // ---------------------------------------------------------------------------

  /** On a table without negative positions the append slot is not negative,
      so neither is any validated position. */
  lemma ValidatedNonNegative<T>(rows: Rows<T>, parent: int, position: Option<int>)
    requires WellPlaced(rows)
    ensures ValidatePosition(rows, parent, position) >= 0
  {
    var m := MaxPosition(rows, parent);
    if m.Some? {
      var id :| id in Siblings(rows, parent) && rows[id].position == m.value;
    }
  }

  /** The insert shift at any p >= 0 followed by storing the new row at p keeps
      positions non-negative and distinct within each parent. */
  lemma InsertKeepsWellPlaced<T>(rows: Rows<T>, parent: int, p: int, newId: int, data: T)
    requires WellPlaced(rows)
    requires p >= 0 && newId !in rows
    ensures WellPlaced(Inserted(rows, parent, p)[newId := Row(parent, p, data)])
  {
  }

  /** Deleting a row and compacting behind it keeps positions non-negative and
      distinct within each parent. */
  lemma DeleteKeepsWellPlaced<T>(rows: Rows<T>, item: int)
    requires WellPlaced(rows)
    requires item in rows
    ensures WellPlaced(Compacted(rows - {item}, rows[item].parent, rows[item].position))
  {
  }

  /** Away from the vacated slot a, the same-parent mapping never lands on b,
      and keeps a non-negative slot non-negative when a and b are too. */
  lemma MovedWithinAvoidsTarget(p: int, a: int, b: int)
    requires p != a
    ensures MovedWithin(p, a, b) != b
    ensures p >= 0 && a >= 0 && b >= 0 ==> MovedWithin(p, a, b) >= 0
  {
  }

  /** Away from the vacated slot a, the same-parent mapping is injective. */
  lemma MovedWithinInjective(p: int, q: int, a: int, b: int)
    requires p != a && q != a && p != q
    ensures MovedWithin(p, a, b) != MovedWithin(q, a, b)
  {
  }

  /** Any move to a slot b >= 0, within a parent or across parents, keeps
      positions non-negative and distinct within each parent. */
  lemma RelocateKeepsWellPlaced<T>(rows: Rows<T>, item: int, target: int, b: int)
    requires WellPlaced(rows)
    requires item in rows
    requires b >= 0
    ensures WellPlaced(Relocated(rows, item, target, b))
  {
    var source, a := rows[item].parent, rows[item].position;
    var after := Relocated(rows, item, target, b);
    if target == source {
      MoveWithinPositions(rows, item, b);
      ReorderedFrame(rows, item, target, b);
      forall x | x in after
        ensures after[x].position >= 0
      {
        if x != item && rows[x].parent == source {
          MovedWithinAvoidsTarget(rows[x].position, a, b);
        }
      }
      forall x, y | x in after && y in after && x != y && after[x].parent == after[y].parent
        ensures after[x].position != after[y].position
      {
        if x != item && y != item && rows[x].parent == source {
          MovedWithinInjective(rows[x].position, rows[y].position, a, b);
        } else if x != item && rows[x].parent == source {
          MovedWithinAvoidsTarget(rows[x].position, a, b);
        } else if y != item && rows[y].parent == source {
          MovedWithinAvoidsTarget(rows[y].position, a, b);
        }
      }
    } else {
      DeleteKeepsWellPlaced(rows, item);
      var gone := Compacted(rows - {item}, source, a);
      InsertKeepsWellPlaced(gone, target, b, item, rows[item].data);
      CrossMoveIsDeleteThenInsert(rows, item, target, b);
    }
  }

  /** Rewriting a row's own columns leaves every parent and position alone. */
  lemma RetaggedKeepsWellPlaced<T>(rows: Rows<T>, id: int, data: T)
    requires WellPlaced(rows)
    requires id in rows
    ensures WellPlaced(rows[id := rows[id].(data := data)])
  {
  }

  /** A move changes no row's parent but the moved one's, and removes or adds no
      row: when the new parent is one of a set of parents that held every row,
      the set still holds every row afterwards. */
  lemma RelocateKeepsParentsIn<T>(rows: Rows<T>, item: int, target: int, b: int, parents: set<int>)
    requires item in rows
    requires forall id :: id in rows ==> rows[id].parent in parents
    requires target in parents
    ensures var r := Relocated(rows, item, target, b);
      r.Keys == rows.Keys && forall id :: id in r ==> r[id].parent in parents
  {
    ReorderedFrame(rows, item, target, b);
  }
}
