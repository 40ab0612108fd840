/** `checkConflict` of src/components/SmartReportDesigner.tsx: does a candidate range overlap
    the range of any component in the list, optionally skipping one component by id. */
module ConflictDetector {
  import opened Common
  import opened SmartComponent
  import opened RangeCodec

  /** The overlap test of checkConflict: the two half-open rectangles are not separated
      along either axis. */
  predicate Overlaps(a: CellRange, b: CellRange)
  {
    !(a.row + a.rowCount <= b.row || a.row >= b.row + b.rowCount ||
      a.col + a.colCount <= b.col || a.col >= b.col + b.colCount)
  }

  /** The cell (row, col) lies inside the range. */
  predicate Covers(r: CellRange, row: int, col: int)
  {
    r.row <= row < r.row + r.rowCount && r.col <= col < r.col + r.colCount
  }

  /** `excludeId && comp.id === excludeId`: an absent or empty excludeId skips nothing. */
  predicate Excluded(c: Component, excludeId: Option<Id>)
  {
    excludeId.Some? && excludeId.value != "" && c.id == excludeId.value
  }

  /** One component stands in the way of the candidate range: it is not skipped, its
      location parses and its range overlaps the candidate. */
  predicate ConflictsWith(c: Component, r: CellRange, excludeId: Option<Id>)
  {
    !Excluded(c, excludeId) && ParseRange(c.location).Some? && Overlaps(r, ParseRange(c.location).value)
  }

  /** Some component of the list stands in the way of the candidate range. */
  predicate HasConflict(cs: seq<Component>, r: CellRange, excludeId: Option<Id>)
  {
    exists c | c in cs :: ConflictsWith(c, r, excludeId)
  }

  /** checkConflict: scan the list in order and report the first overlap. */
  method CheckConflict(cs: seq<Component>, r: CellRange, excludeId: Option<Id>) returns (conflict: bool)
    ensures conflict <==> HasConflict(cs, r, excludeId)
  {
    for i := 0 to |cs|
      invariant forall j | 0 <= j < i :: !ConflictsWith(cs[j], r, excludeId)
    {
      var comp := cs[i];
      if excludeId.Some? && excludeId.value != "" && comp.id == excludeId.value {
        continue;
      }
      var existing := ParseRange(comp.location);
      if existing.None? {
        continue;
      }
      var e := existing.value;
      var overlap := !(r.row + r.rowCount <= e.row || r.row >= e.row + e.rowCount ||
                       r.col + r.colCount <= e.col || r.col >= e.col + e.colCount);
      if overlap {
        assert ConflictsWith(cs[i], r, excludeId);
        return true;
      }
    }
    return false;
  }

  /** For ranges with at least one row and one column, overlapping means sharing a cell. */
  lemma OverlapsIffSharedCell(a: CellRange, b: CellRange)
    requires a.rowCount >= 1 && a.colCount >= 1 && b.rowCount >= 1 && b.colCount >= 1
    ensures Overlaps(a, b) <==> exists row, col :: Covers(a, row, col) && Covers(b, row, col)
  {
    if Overlaps(a, b) {
      var row := if a.row < b.row then b.row else a.row;
      var col := if a.col < b.col then b.col else a.col;
      assert Covers(a, row, col) && Covers(b, row, col);
    }
  }

  /** Overlap does not depend on which range is the candidate. */
  lemma OverlapsSymmetric(a: CellRange, b: CellRange)
    ensures Overlaps(a, b) <==> Overlaps(b, a)
  {
  }

  /** Ranges that only touch along an edge do not overlap: a component may be placed right
      next to another one. */
  lemma TouchingRangesDoNotOverlap(a: CellRange, b: CellRange)
    requires b.col == a.col + a.colCount || b.row == a.row + a.rowCount
    ensures !Overlaps(a, b)
  {
  }

  /** Skipping a non-empty id is the same as checking the list without that component. */
  lemma ExcludeIsRemoval(cs: seq<Component>, r: CellRange, id: Id)
    requires id != ""
    ensures HasConflict(cs, r, Some(id)) <==> HasConflict(RemoveIds(cs, {id}), r, None)
  {
    var rest := RemoveIds(cs, {id});
    if HasConflict(cs, r, Some(id)) {
      var c :| c in cs && ConflictsWith(c, r, Some(id));
      assert c in rest && ConflictsWith(c, r, None);
    }
    if HasConflict(rest, r, None) {
      var c :| c in rest && ConflictsWith(c, r, None);
      assert c in cs && ConflictsWith(c, r, Some(id));
    }
  }

  /** An empty excludeId is falsy and skips nothing. */
  lemma EmptyExcludeSkipsNothing(cs: seq<Component>, r: CellRange)
    ensures HasConflict(cs, r, Some("")) <==> HasConflict(cs, r, None)
  {
  }

  /** A component whose location does not parse never stands in the way. */
  lemma UnparsedNeverConflicts(cs: seq<Component>, c: Component, r: CellRange, excludeId: Option<Id>)
    requires ParseRange(c.location).None?
    ensures HasConflict(cs + [c], r, excludeId) <==> HasConflict(cs, r, excludeId)
  {
    if HasConflict(cs + [c], r, excludeId) {
      var d :| d in cs + [c] && ConflictsWith(d, r, excludeId);
      assert d in cs;
    }
  }

  /** A list of components whose ranges all miss the candidate has no conflict. */
  lemma NoConflictWhenAllMiss(cs: seq<Component>, r: CellRange, excludeId: Option<Id>)
    requires forall c | c in cs :: ParseRange(c.location).Some? ==> !Overlaps(r, ParseRange(c.location).value)
    ensures !HasConflict(cs, r, excludeId)
  {
  }
}
